/**
 * The parts of Python's `str` that the retrieval code relies on: `isspace`,
 * `strip`, `lower`, `split()`, `join`, the substring test `a in b`, `str(int)`
 * and slicing with Python's index rules. Characters are modelled on the ASCII
 * range (see README, "Left out").
 */
module Strings {

  /** `c.isspace()` on ASCII: space, `\t \n \v \f \r` and the separators 0x1c-0x1f. */
  predicate IsSpace(c: char) {
    c == ' ' || (9 <= c as int <= 13) || (28 <= c as int <= 31)
  }

  /** Python's truthiness of `s.strip()` is false exactly for such strings. */
  predicate Blank(s: string) {
    forall i :: 0 <= i < |s| ==> IsSpace(s[i])
  }

  /** The first index in `[i, hi)` that does not hold whitespace, or `hi`. */
  function SkipSpaces(s: string, i: nat, hi: nat): (k: nat)
    requires i <= hi <= |s|
    ensures i <= k <= hi
    decreases hi - i
  {
    if i < hi && IsSpace(s[i]) then SkipSpaces(s, i + 1, hi) else i
  }

  /**
   * The end of `s[lo..hi]` once trailing whitespace is dropped: one past the
   * last non-space in `[i, hi)`, or `last` when there is none.
   */
  function TrimSpaces(s: string, i: nat, hi: nat, last: nat): (k: nat)
    requires last <= i <= hi <= |s|
    ensures last <= k <= hi
    decreases hi - i
  {
    if i == hi then last
    else TrimSpaces(s, i + 1, hi, if IsSpace(s[i]) then last else i + 1)
  }

  /** `s.strip()` with no argument. */
  function Strip(s: string): string {
    var a := SkipSpaces(s, 0, |s|);
    s[a..TrimSpaces(s, a, |s|, a)]
  }

  /** Everything skipped is whitespace, and the scan stops at `hi` or at a non-space. */
  lemma {:induction false} SkipSpacesSpec(s: string, i: nat, hi: nat)
    requires i <= hi <= |s|
    ensures var k := SkipSpaces(s, i, hi);
      (forall j :: i <= j < k ==> IsSpace(s[j])) && (k == hi || !IsSpace(s[k]))
    decreases hi - i
  {
    if i < hi && IsSpace(s[i]) {
      SkipSpacesSpec(s, i + 1, hi);
    }
  }

  /** Every non-space of `[i, hi)` lies before the end found, which follows a non-space unless it is `last`. */
  lemma {:induction false} TrimSpacesSpec(s: string, i: nat, hi: nat, last: nat)
    requires last <= i <= hi <= |s|
    ensures var k := TrimSpaces(s, i, hi, last);
      (forall j :: i <= j < hi && !IsSpace(s[j]) ==> j < k) &&
      (k == last || (i < k && !IsSpace(s[k - 1])))
    decreases hi - i
  {
    if i < hi {
      TrimSpacesSpec(s, i + 1, hi, if IsSpace(s[i]) then last else i + 1);
    }
  }

  /** `s.strip()` is `s[a..b]`, with only whitespace before `a` and from `b` on. */
  lemma StripBounds(s: string) returns (a: nat, b: nat)
    ensures a <= b <= |s| && Strip(s) == s[a..b]
    ensures forall j :: 0 <= j < a ==> IsSpace(s[j])
    ensures forall j :: b <= j < |s| ==> IsSpace(s[j])
  {
    a := SkipSpaces(s, 0, |s|);
    b := TrimSpaces(s, a, |s|, a);
    SkipSpacesSpec(s, 0, |s|);
    TrimSpacesSpec(s, a, |s|, a);
  }

  /** `s.strip()` is empty exactly when `s` is whitespace only. */
  lemma StripEmptyIffBlank(s: string)
    ensures Strip(s) == "" <==> Blank(s)
  {
    var a := SkipSpaces(s, 0, |s|);
    SkipSpacesSpec(s, 0, |s|);
    TrimSpacesSpec(s, a, |s|, a);
  }

  function LowerChar(c: char): char {
    if 'A' <= c <= 'Z' then (c as int + 32) as char else c
  }

  /** `s.lower()` on ASCII. */
  function Lower(s: string): (r: string)
    ensures |r| == |s|
  {
    seq(|s|, i requires 0 <= i < |s| => LowerChar(s[i]))
  }

  /** `needle` occurs in `hay` starting at index `i`. */
  predicate OccursAt(needle: string, hay: string, i: int) {
    0 <= i && i + |needle| <= |hay| && hay[i..i + |needle|] == needle
  }

  /** Python's substring test `needle in hay`. */
  predicate Contains(hay: string, needle: string) {
    exists i :: 0 <= i <= |hay| && OccursAt(needle, hay, i)
  }

  /** Index of the first whitespace character at or after `i`, or `|s|`. */
  function WordEnd(s: string, i: nat): (e: nat)
    requires i <= |s|
    ensures i <= e <= |s|
    ensures e == |s| || IsSpace(s[e])
    ensures forall j :: i <= j < e ==> !IsSpace(s[j])
    decreases |s| - i
  {
    if i < |s| && !IsSpace(s[i]) then WordEnd(s, i + 1) else i
  }

  /** A non-empty string without whitespace, as `split()` produces. */
  predicate IsWord(w: string) {
    w != "" && forall j :: 0 <= j < |w| ==> !IsSpace(w[j])
  }

  /** `s.split()` with no argument: the maximal runs of non-whitespace characters. */
  function Words(s: string): (ws: seq<string>)
    ensures forall k :: 0 <= k < |ws| ==> IsWord(ws[k])
    decreases |s|
  {
    if s == [] then []
    else if IsSpace(s[0]) then Words(s[1..])
    else
      var e := WordEnd(s, 0);
      [s[..e]] + Words(s[e..])
  }

  /** `s.split()` is empty exactly when `s.strip()` is. */
  lemma {:induction false} WordsEmptyIffBlank(s: string)
    ensures Words(s) == [] <==> Blank(s)
    decreases |s|
  {
    if s != [] && IsSpace(s[0]) {
      WordsEmptyIffBlank(s[1..]);
      if Blank(s[1..]) {
        forall i | 0 <= i < |s| ensures IsSpace(s[i]) {
          if i > 0 { assert s[i] == s[1..][i - 1]; }
        }
      }
    }
  }

  /** `sep.join(parts)`. */
  function Join(parts: seq<string>, sep: string): string
    decreases |parts|
  {
    if |parts| == 0 then ""
    else if |parts| == 1 then parts[0]
    else parts[0] + sep + Join(parts[1..], sep)
  }

  /** Joining one more part at the end adds the separator and the part. */
  lemma {:induction false} JoinSnoc(parts: seq<string>, p: string, sep: string)
    requires |parts| > 0
    ensures Join(parts + [p], sep) == Join(parts, sep) + sep + p
    decreases |parts|
  {
    if |parts| > 1 {
      assert (parts + [p])[1..] == parts[1..] + [p];
      JoinSnoc(parts[1..], p, sep);
    } else {
      assert (parts + [p])[1..] == [p];
    }
  }

  lemma {:induction false} WordEndAt(s: string, i: nat, e: nat)
    requires i <= e <= |s|
    requires forall j :: i <= j < e ==> !IsSpace(s[j])
    requires e == |s| || IsSpace(s[e])
    ensures WordEnd(s, i) == e
    decreases e - i
  {
    if i < e {
      WordEndAt(s, i + 1, e);
    }
  }

  /** Splitting words joined by single spaces gives the words back. */
  lemma {:induction false} WordsOfJoin(ws: seq<string>)
    requires forall k :: 0 <= k < |ws| ==> IsWord(ws[k])
    ensures Words(Join(ws, " ")) == ws
    decreases |ws|
  {
    if |ws| == 1 {
      var w := ws[0];
      WordEndAt(w, 0, |w|);
      assert w[..|w|] == w && w[|w|..] == [];
      assert Words(w) == [w[..|w|]] + Words(w[|w|..]);
    } else if |ws| > 1 {
      var w, rest := ws[0], Join(ws[1..], " ");
      var s := w + " " + rest;
      assert s[|w|] == ' ';
      forall j | 0 <= j < |w| ensures !IsSpace(s[j]) {
        assert s[j] == w[j];
      }
      WordEndAt(s, 0, |w|);
      assert s[..|w|] == w;
      assert s[|w|..] == " " + rest;
      assert (" " + rest)[1..] == rest;
      WordsOfJoin(ws[1..]);
    }
  }

  /** `s.split(sep)` for a one-character separator: keeps empty pieces. */
  function SplitOn(s: string, sep: char): (parts: seq<string>)
    ensures |parts| > 0
    decreases |s|
  {
    if s == [] then [""]
    else
      var rest := SplitOn(s[1..], sep);
      if s[0] == sep then [""] + rest else [[s[0]] + rest[0]] + rest[1..]
  }

  lemma {:induction false} SplitOnPiece(p: string, tail: string, sep: char)
    requires sep !in p
    ensures SplitOn(p + tail, sep) == [p + SplitOn(tail, sep)[0]] + SplitOn(tail, sep)[1..]
    decreases |p|
  {
    if p != [] {
      assert (p + tail)[1..] == p[1..] + tail;
      SplitOnPiece(p[1..], tail, sep);
      assert [p[0]] + (p[1..] + SplitOn(tail, sep)[0]) == p + SplitOn(tail, sep)[0];
    } else {
      var st := SplitOn(tail, sep);
      assert p + tail == tail && p + st[0] == st[0];
      assert st == [st[0]] + st[1..];
    }
  }

  /** Splitting on a separator that occurs in no part undoes `join`. */
  lemma {:induction false} SplitOnJoin(parts: seq<string>, sep: char)
    requires |parts| > 0
    requires forall k :: 0 <= k < |parts| ==> sep !in parts[k]
    ensures SplitOn(Join(parts, [sep]), sep) == parts
    decreases |parts|
  {
    if |parts| == 1 {
      SplitOnPiece(parts[0], "", sep);
      assert parts[0] + "" == parts[0];
    } else {
      var rest := Join(parts[1..], [sep]);
      SplitOnJoin(parts[1..], sep);
      assert parts[0] + [sep] + rest == parts[0] + ([sep] + rest);
      SplitOnPiece(parts[0], [sep] + rest, sep);
      assert ([sep] + rest)[1..] == rest;
      assert SplitOn([sep] + rest, sep) == [""] + parts[1..];
      assert parts[0] + "" == parts[0];
      assert parts == [parts[0]] + parts[1..];
    }
  }

  function DigitChar(d: nat): char
    requires d < 10
  {
    ('0' as int + d) as char
  }

  /** `str(n)` for a natural number. */
  function NatToString(n: nat): (r: string)
    ensures |r| > 0
    ensures forall i :: 0 <= i < |r| ==> '0' <= r[i] <= '9'
    ensures n >= 10 ==> |r| >= 2
  {
    if n < 10 then [DigitChar(n)] else NatToString(n / 10) + [DigitChar(n % 10)]
  }

  /** `str(i)` for any integer: a minus sign, then the decimal digits. */
  function IntToString(i: int): (r: string)
    ensures |r| > 0
  {
    if i < 0 then "-" + NatToString(-i) else NatToString(i)
  }

  /** Decimal rendering is injective: distinct numbers print differently. */
  lemma {:induction false} NatToStringInjective(a: nat, b: nat)
    requires NatToString(a) == NatToString(b)
    ensures a == b
  {
    if a >= 10 && b >= 10 {
      var sa, sb := NatToString(a), NatToString(b);
      assert sa[..|sa| - 1] == NatToString(a / 10);
      assert sb[..|sb| - 1] == NatToString(b / 10);
      NatToStringInjective(a / 10, b / 10);
      assert DigitChar(a % 10) == sa[|sa| - 1] == DigitChar(b % 10);
    }
  }

  /** Python's treatment of one slice bound `i` on a sequence of length `n`. */
  function SliceBound(i: int, n: nat): (r: nat)
    ensures r <= n
  {
    if i < 0 then (if i + n < 0 then 0 else i + n)
    else if i > n then n
    else i
  }

  /** Python's `s[start:stop]`: negative bounds count from the end, bounds are clamped. */
  function Slice<T>(s: seq<T>, start: int, stop: int): (r: seq<T>)
    ensures |r| <= |s|
    ensures 0 <= start <= stop <= |s| ==> r == s[start..stop]
  {
    var a, b := SliceBound(start, |s|), SliceBound(stop, |s|);
    if a < b then s[a..b] else []
  }

  /** `s.strip()` occurs in `s`. */
  lemma StripOccurs(s: string)
    ensures Contains(s, Strip(s))
  {
    var a := SkipSpaces(s, 0, |s|);
    ContainsSlice(s, a, TrimSpaces(s, a, |s|, a));
  }

  /** A piece of a piece of `t` is a piece of `t`. */
  lemma ContainsTransitive(t: string, u: string, w: string)
    requires Contains(t, u) && Contains(u, w)
    ensures Contains(t, w)
  {
    var i :| 0 <= i <= |t| && OccursAt(u, t, i);
    var j :| 0 <= j <= |u| && OccursAt(w, u, j);
    assert t[i..i + |u|] == u;
    forall k | 0 <= k < |w| ensures t[i + j + k] == w[k] {
      assert w[k] == u[j + k] == t[i..i + |u|][j + k];
    }
    assert t[i + j..i + j + |w|] == w;
    assert OccursAt(w, t, i + j);
  }

  /** A slice of a slice of `t` occurs in `t`. */
  lemma ContainsSlice(t: string, a: nat, b: nat)
    requires a <= b <= |t|
    ensures Contains(t, t[a..b])
  {
    assert OccursAt(t[a..b], t, a);
  }
}
