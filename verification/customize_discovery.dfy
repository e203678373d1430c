/**
 * Face discovery (`CustomizeDiscoveryService`): the data id of a tribe and gender, the model
 * path of a face, and the scans over face ids 0..255 that ask whether such a model file exists.
 */
module CustomizeDiscovery {
  import opened Common

  // Values of the `Tribe`, `Race` and `Gender` enums used below.
  const Midlander := 1
  const Highlander := 2
  const Elezen := 2
  const Lalafell := 3
  const Miqote := 4
  const Roegadyn := 5
  const Masculine := 0

  /** The race of a tribe: `Math.Floor((tribe + 1) / 2)`. */
  function RaceOf(tribe: byte): (r: int)
    ensures 0 <= r <= 128
    ensures tribe == 2 * r - 1 || tribe == 2 * r
  {
    (tribe + 1) / 2
  }

  /** `CalcDataIdFor`: the data id of the model files of a tribe and gender. */
  function CalcDataIdFor(tribe: byte, gender: byte): (r: ushort)
  {
    var isMasc := gender == Masculine;
    var value :=
      if tribe == Midlander then (if isMasc then 101 else 201)
      else if tribe == Highlander then (if isMasc then 301 else 401)
      else
        var race := RaceOf(tribe);
        if race == Elezen then (if isMasc then 501 else 601)
        else if race == Miqote then (if isMasc then 701 else 801)
        else if race == Roegadyn then (if isMasc then 901 else 1001)
        else if race == Lalafell then (if isMasc then 1101 else 1201)
        else 1301 + (race - 6) * 200 + (if isMasc then 0 else 100);
    value % 65536
  }

  /** The Hyur tribes have fixed ids. */
  lemma HyurIds()
    ensures CalcDataIdFor(Midlander, Masculine) == 101 && CalcDataIdFor(Midlander, 1) == 201
    ensures CalcDataIdFor(Highlander, Masculine) == 301 && CalcDataIdFor(Highlander, 1) == 401
  {
  }

  /**
   * Every tribe other than the Hyur ones gets the id of its race: 501, 701, 901 and 1101 for the
   * masculine Elezen, Miqo'te, Roegadyn and Lalafell, and `1301 + (race - 6) * 200` beyond them.
   * The value never needs the 16-bit truncation.
   */
  lemma RaceIds(tribe: byte)
    requires tribe != Midlander && tribe != Highlander
    ensures var race := RaceOf(tribe);
            CalcDataIdFor(tribe, Masculine) ==
              if race == Elezen then 501
              else if race == Miqote then 701
              else if race == Roegadyn then 901
              else if race == Lalafell then 1101
              else 1301 + (race - 6) * 200
  {
  }

  /** For every tribe, the feminine id is the masculine id plus 100. */
  lemma FeminineIsMasculinePlus100(tribe: byte, gender: byte)
    requires gender != Masculine
    ensures CalcDataIdFor(tribe, gender) == CalcDataIdFor(tribe, Masculine) + 100
  {
  }

  // ---------------------------------------------------------------------------------------------
  // Paths

  /** The decimal digit character of `d`. */
  function DigitChar(d: int): char
    requires 0 <= d < 10
  {
    "0123456789"[d]
  }

  /** Whether `c` is a decimal digit. */
  predicate IsDigit(c: char)
  {
    '0' <= c <= '9'
  }

  /** The decimal digits of `n`, most significant first, without leading zeros. */
  function Digits(n: nat): (r: string)
    ensures |r| >= 1 && forall k :: 0 <= k < |r| ==> IsDigit(r[k])
  {
    if n < 10 then [DigitChar(n)] else Digits(n / 10) + [DigitChar(n % 10)]
  }

  /** The number a string of decimal digits spells. */
  function Value(s: string): nat
    requires forall k :: 0 <= k < |s| ==> IsDigit(s[k])
  {
    if s == [] then 0
    else
      var c := s[|s| - 1];
      assert IsDigit(c);
      10 * Value(s[..|s| - 1]) + (c as int - '0' as int)
  }

  /** `{0:D4}`: the decimal digits of `n`, padded with zeros to at least four. */
  function D4(n: nat): (r: string)
    ensures forall k :: 0 <= k < |r| ==> IsDigit(r[k])
  {
    var d := Digits(n);
    if |d| < 4 then Repeat('0', 4 - |d|) + d else d
  }

  /** `ResolveFacePath`: the model file of face `faceId` of data id `dataId`. */
  function ResolveFacePath(dataId: ushort, faceId: nat): string
  {
    "chara/human/c" + D4(dataId) + "/obj/face/f" + D4(faceId) + "/model/c" + D4(dataId) + "f" + D4(faceId) + "_fac.mdl"
  }

  /** Reading back the digits of `n` gives `n`. */
  lemma {:induction false} DigitsValue(n: nat)
    ensures Value(Digits(n)) == n
  {
    if n >= 10 {
      var r := Digits(n);
      assert r[..|r| - 1] == Digits(n / 10);
      DigitsValue(n / 10);
    }
  }

  /** Numbers below `10^k` (`k >= 1`) have at most `k` digits; here for `k = 4`. */
  lemma DigitsShort(n: nat)
    requires n < 10000
    ensures |Digits(n)| <= 4
  {
    var a := n / 10;
    var b := a / 10;
    var c := b / 10;
    assert c < 10 && |Digits(c)| == 1;
    assert |Digits(b)| <= 2;
    assert |Digits(a)| <= 3;
  }

  /** Leading zeros do not change the value. */
  lemma {:induction false} ZerosValue(k: nat, s: string)
    requires forall i :: 0 <= i < |s| ==> IsDigit(s[i])
    ensures Value(Repeat('0', k) + s) == Value(s)
    decreases k, |s|
  {
    var z := Repeat('0', k) + s;
    if s == [] {
      assert z == Repeat('0', k);
      ZerosOnly(k);
    } else {
      assert z[..|z| - 1] == Repeat('0', k) + s[..|s| - 1];
      ZerosValue(k, s[..|s| - 1]);
    }
  }

  /** A string of zeros is worth 0. */
  lemma {:induction false} ZerosOnly(k: nat)
    ensures Value(Repeat('0', k)) == 0
  {
    if k > 0 {
      var z := Repeat('0', k);
      assert z[..k - 1] == Repeat('0', k - 1);
      ZerosOnly(k - 1);
    }
  }

  /** `{0:D4}` of a number below 10000 is exactly four digits that spell the number. */
  lemma D4RoundTrip(n: nat)
    requires n < 10000
    ensures |D4(n)| == 4 && Value(D4(n)) == n
  {
    DigitsShort(n);
    DigitsValue(n);
    var d := Digits(n);
    if |d| < 4 {
      ZerosValue(4 - |d|, d);
    }
  }

  /**
   * The face path of ids below 10000 holds the data id at characters 13..17 and 40..44 and the
   * face id at 28..32 and 45..49, so different ids never name the same file.
   */
  lemma FacePathEmbedsIds(dataId: ushort, faceId: nat)
    requires dataId < 10000 && faceId < 10000
    ensures var p := ResolveFacePath(dataId, faceId);
            |p| == 57 && p[..13] == "chara/human/c" && p[49..] == "_fac.mdl"
            && p[13..17] == D4(dataId) && p[28..32] == D4(faceId)
            && p[40..44] == D4(dataId) && p[45..49] == D4(faceId)
            && Value(p[13..17]) == dataId && Value(p[28..32]) == faceId
  {
    D4RoundTrip(dataId);
    D4RoundTrip(faceId);
    var a := D4(dataId);
    var b := D4(faceId);
    var p := ResolveFacePath(dataId, faceId);
    assert p == "chara/human/c" + a + "/obj/face/f" + b + "/model/c" + a + "f" + b + "_fac.mdl";
    assert p[13..17] == a;
    assert p[28..32] == b;
    assert p[40..44] == a;
    assert p[45..49] == b;
  }

  /** Two face paths of ids below 10000 are equal only for equal ids. */
  lemma FacePathInjective(d1: ushort, f1: nat, d2: ushort, f2: nat)
    requires d1 < 10000 && f1 < 10000 && d2 < 10000 && f2 < 10000
    requires ResolveFacePath(d1, f1) == ResolveFacePath(d2, f2)
    ensures d1 == d2 && f1 == f2
  {
    FacePathEmbedsIds(d1, f1);
    FacePathEmbedsIds(d2, f2);
  }

  // ---------------------------------------------------------------------------------------------
  // Scans

  /** `IsFaceIdValidFor`: whether the game data holds the face's model file. */
  predicate IsFaceIdValidFor(fileExists: string -> bool, dataId: ushort, faceId: nat)
  {
    fileExists(ResolveFacePath(dataId, faceId))
  }

  /** `GetFaceTypes`: every face id 0..255 whose model exists, in ascending order. */
  method GetFaceTypes(fileExists: string -> bool, dataId: ushort) returns (r: seq<byte>)
    ensures forall i, j :: 0 <= i < j < |r| ==> r[i] < r[j]
    ensures forall f: byte :: f in r <==> IsFaceIdValidFor(fileExists, dataId, f)
  {
    r := [];
    var i: int := 0;
    while i <= 255
      invariant 0 <= i <= 256
      invariant forall a, b :: 0 <= a < b < |r| ==> r[a] < r[b]
      invariant forall k :: 0 <= k < |r| ==> r[k] < i
      invariant forall f: byte :: f in r <==> f < i && IsFaceIdValidFor(fileExists, dataId, f)
    {
      if IsFaceIdValidFor(fileExists, dataId, i) {
        r := r + [i];
      }
      i := i + 1;
    }
  }

  /** The first id in `lo..254` whose validity is `want`, or 255 when there is none. */
  function FirstWith(valid: int -> bool, lo: nat, want: bool): (r: nat)
    requires lo <= 255
    ensures lo <= r <= 255
    ensures r < 255 ==> valid(r) == want
    ensures forall i :: lo <= i < r ==> valid(i) != want
    decreases 255 - lo
  {
    if lo == 255 then 255 else if valid(lo) == want then lo else FirstWith(valid, lo + 1, want)
  }

  /**
   * What `FindBestFaceTypeFor` picks: the first valid id if it is above `current`; otherwise the
   * last id of the run of valid ids starting there; `current` when there is no valid id below
   * 255 or the run reaches 254.
   */
  function BestFace(valid: int -> bool, current: byte): byte
  {
    var first := FirstWith(valid, 0, true);
    if first == 255 then current
    else if first > current then first
    else
      var end := FirstWith(valid, first + 1, false);
      if end == 255 then current else end - 1
  }

  /** No valid id below 255: the current face is kept. */
  lemma BestFaceNone(valid: int -> bool, current: byte)
    requires forall i :: 0 <= i < 255 ==> !valid(i)
    ensures BestFace(valid, current) == current
  {
  }

  /** The first valid id `f`, when it is above the current face, is the answer. */
  lemma BestFaceFirst(valid: int -> bool, current: byte, f: int)
    requires 0 <= f < 255 && valid(f) && forall i :: 0 <= i < f ==> !valid(i)
    requires f > current
    ensures BestFace(valid, current) == f
  {
    var first := FirstWith(valid, 0, true);
    assert first == f;
  }

  /**
   * Otherwise, when the run of valid ids starting at `f` ends below 255, the answer is its last id;
   * when the run reaches 254 the current face is kept.
   */
  lemma BestFaceRun(valid: int -> bool, current: byte, f: int)
    requires 0 <= f < 255 && valid(f) && forall i :: 0 <= i < f ==> !valid(i)
    requires f <= current
    ensures (forall i :: f <= i < 255 ==> valid(i)) ==> BestFace(valid, current) == current
    ensures var r := BestFace(valid, current);
            (exists i :: f <= i < 255 && !valid(i)) ==>
              f <= r && r + 1 < 255 && !valid(r + 1) && forall i :: f <= i <= r ==> valid(i)
  {
    var first := FirstWith(valid, 0, true);
    assert first == f;
    var end := FirstWith(valid, f + 1, false);
    if end == 255 {
      assert forall i :: f <= i < 255 ==> valid(i);
    }
  }

  /** Face validity as a predicate on all integers (ids below 0 are never asked for). */
  function FaceValidity(fileExists: string -> bool, dataId: ushort): int -> bool
  {
    i => i >= 0 && IsFaceIdValidFor(fileExists, dataId, i)
  }

  /** `FindBestFaceTypeFor`: scans ids 0..254 once, as `BestFace` describes. */
  method FindBestFaceTypeFor(fileExists: string -> bool, dataId: ushort, current: byte) returns (r: byte)
    ensures r == BestFace(FaceValidity(fileExists, dataId), current)
  {
    r := ScanFaces(FaceValidity(fileExists, dataId), current);
  }

  /** The loop of `FindBestFaceTypeFor`, over any validity test. */
  method ScanFaces(valid: int -> bool, current: byte) returns (r: byte)
    ensures r == BestFace(valid, current)
  {
    ghost var first := FirstWith(valid, 0, true);
    var isRangeValid := false;
    var i := 0;
    while i < 255
      invariant 0 <= i <= 255
      invariant isRangeValid <==> first < i
      invariant !isRangeValid ==> forall k :: 0 <= k < i ==> !valid(k)
      invariant isRangeValid ==> first <= current
      invariant isRangeValid ==> forall k :: first <= k < i ==> valid(k)
    {
      var ok := valid(i);
      if ok && !isRangeValid {
        assert first == i;
        isRangeValid := true;
        if i > current {
          return i;
        }
      } else if !ok && isRangeValid {
        FirstFrom(valid, first + 1, i);
        return i - 1;
      } else if !isRangeValid {
        assert first != i;
      }
      i := i + 1;
    }
    if isRangeValid {
      FirstFrom(valid, first + 1, 255);
    }
    return current;
  }

  /** When ids `lo..i-1` are valid and `i` is not (or is 255), the first invalid id from `lo` is `i`. */
  lemma {:induction false} FirstFrom(valid: int -> bool, lo: nat, i: nat)
    requires lo <= i <= 255
    requires forall k :: lo <= k < i ==> valid(k)
    requires i < 255 ==> !valid(i)
    ensures FirstWith(valid, lo, false) == i
    decreases i - lo
  {
    if lo < i {
      FirstFrom(valid, lo + 1, i);
    }
  }
}
