/**
 * Figure and table identifiers in queries: `normalize_figure_token` and the
 * two regular-expression scans of `extract_fig_ids_from_query`.
 *
 * Both patterns are modelled concretely, as scanners that do what Python's
 * backtracking engine does with them under `re.finditer`: a match is tried at
 * each position from left to right, and after a match the scan resumes at its
 * end.
 */
module FigureIds {
  import opened Wrappers
  import opened Strings
  import opened OrderedDicts

  /** `\w` on ASCII: letters, digits and the underscore. */
  predicate IsWordChar(c: char) {
    ('a' <= c <= 'z') || ('A' <= c <= 'Z') || ('0' <= c <= '9') || c == '_'
  }

  /** `[\w\.\-]`, the characters the normaliser keeps. */
  predicate IsTokenChar(c: char) {
    IsWordChar(c) || c == '.' || c == '-'
  }

  predicate IsDigit(c: char) {
    '0' <= c <= '9'
  }

  /** `[IVXLCivxlc0-9]`. */
  predicate IsRomanOrDigit(c: char) {
    c in "IVXLCivxlc" || IsDigit(c)
  }

  /** `[IVXLCivxlc0-9\.\- ]`, the group that follows a marker word. */
  predicate InGroupClass(c: char) {
    IsRomanOrDigit(c) || c == '.' || c == '-' || c == ' '
  }

  /** The characters an extracted identifier can hold: `ivxlc`, digits, `.` and `-`. */
  predicate IsIdChar(c: char) {
    c in "ivxlc" || IsDigit(c) || c == '.' || c == '-'
  }

  /** `re.sub(r"[^\w\.\-]", "", s)`: every other character is deleted. */
  function KeepTokenChars(s: string): (r: string)
    ensures forall i :: 0 <= i < |r| ==> IsTokenChar(r[i])
    decreases |s|
  {
    if s == [] then []
    else (if IsTokenChar(s[0]) then [s[0]] else []) + KeepTokenChars(s[1..])
  }

  /** `normalize_figure_token(s)`; `None` is modelled as the empty string. */
  function Normalize(s: string): string {
    if s == "" then "" else Lower(KeepTokenChars(Strip(s)))
  }

  lemma {:induction false} KeepTokenCharsAppend(a: string, b: string)
    ensures KeepTokenChars(a + b) == KeepTokenChars(a) + KeepTokenChars(b)
    decreases |a|
  {
    if a != [] {
      assert (a + b)[1..] == a[1..] + b;
      KeepTokenCharsAppend(a[1..], b);
    } else {
      assert a + b == b;
    }
  }

  /** Whitespace is never kept. */
  lemma {:induction false} KeepTokenCharsBlank(s: string)
    requires Blank(s)
    ensures KeepTokenChars(s) == []
    decreases |s|
  {
    if s != [] {
      KeepTokenCharsBlank(s[1..]);
    }
  }

  /** A string of kept characters is left as it is. */
  lemma {:induction false} KeepTokenCharsKeeps(s: string)
    requires forall i :: 0 <= i < |s| ==> IsTokenChar(s[i])
    ensures KeepTokenChars(s) == s
    decreases |s|
  {
    if s != [] {
      KeepTokenCharsKeeps(s[1..]);
    }
  }

  lemma LowerAppend(a: string, b: string)
    ensures Lower(a + b) == Lower(a) + Lower(b)
  {
  }

  /** Whitespace around a string is deleted with the rest. */
  lemma KeepTokenCharsAround(pre: string, mid: string, post: string)
    requires Blank(pre) && Blank(post)
    ensures KeepTokenChars(pre + (mid + post)) == KeepTokenChars(mid)
  {
    KeepTokenCharsAppend(pre, mid + post);
    KeepTokenCharsAppend(mid, post);
    KeepTokenCharsBlank(pre);
    KeepTokenCharsBlank(post);
  }

  /** Stripping first changes nothing: whitespace is deleted anyway. */
  lemma KeepTokenCharsStrip(s: string)
    ensures KeepTokenChars(Strip(s)) == KeepTokenChars(s)
  {
    var a, b := StripBounds(s);
    var pre, mid, post := s[..a], s[a..b], s[b..];
    assert s == pre + (mid + post);
    assert Blank(post) by {
      forall j | 0 <= j < |post| ensures IsSpace(post[j]) {
        assert post[j] == s[b + j];
      }
    }
    KeepTokenCharsAround(pre, mid, post);
  }

  /** The leading `strip()` changes nothing: `Normalize` deletes, then lower-cases. */
  lemma NormalizeIgnoresStrip(s: string)
    ensures Normalize(s) == Lower(KeepTokenChars(s))
  {
    KeepTokenCharsStrip(s);
  }

  /** The output holds only lower-case `\w` characters, `.` and `-`: whitespace is gone. */
  lemma NormalizeShape(s: string)
    ensures forall i :: 0 <= i < |Normalize(s)| ==>
      IsTokenChar(Normalize(s)[i]) && !('A' <= Normalize(s)[i] <= 'Z') && !IsSpace(Normalize(s)[i])
  {
    NormalizeIgnoresStrip(s);
  }

  /** Normalising splits at any point: `Normalize(a + b)` is `Normalize(a) + Normalize(b)`. */
  lemma NormalizeAppend(a: string, b: string)
    ensures Normalize(a + b) == Normalize(a) + Normalize(b)
  {
    NormalizeIgnoresStrip(a);
    NormalizeIgnoresStrip(b);
    NormalizeIgnoresStrip(a + b);
    KeepTokenCharsAppend(a, b);
    LowerAppend(KeepTokenChars(a), KeepTokenChars(b));
  }

  /** Normalising twice is normalising once. */
  lemma NormalizeIdempotent(s: string)
    ensures Normalize(Normalize(s)) == Normalize(s)
  {
    var n := Normalize(s);
    NormalizeShape(s);
    NormalizeIgnoresStrip(n);
    KeepTokenCharsKeeps(n);
    assert Lower(n) == n;
  }

  /** Lower-casing does not change which characters are kept. */
  lemma {:induction false} KeepTokenCharsLower(s: string)
    ensures KeepTokenChars(Lower(s)) == Lower(KeepTokenChars(s))
    decreases |s|
  {
    if s != [] {
      assert Lower(s)[1..] == Lower(s[1..]);
      KeepTokenCharsLower(s[1..]);
      LowerAppend(if IsTokenChar(s[0]) then [s[0]] else [], KeepTokenChars(s[1..]));
    }
  }

  /** Case does not matter: a query and its lower-cased form normalise alike. */
  lemma NormalizeIgnoresCase(s: string)
    ensures Normalize(Lower(s)) == Normalize(s)
  {
    NormalizeIgnoresStrip(s);
    NormalizeIgnoresStrip(Lower(s));
    KeepTokenCharsLower(s);
    var k := KeepTokenChars(s);
    assert Lower(Lower(k)) == Lower(k);
  }

  /**
   * Whitespace between two pieces disappears, as in the docstring's
   * `'Figure III . 5'` becoming `'figureiii.5'`.
   */
  lemma NormalizeJoinsPieces(a: string, b: string)
    requires forall i :: 0 <= i < |a| ==> IsTokenChar(a[i])
    requires forall i :: 0 <= i < |b| ==> IsTokenChar(b[i])
    ensures Normalize(a + " " + b) == Lower(a + b)
  {
    NormalizeDropsBlank(a, " ", b);
    NormalizeWord(a);
    NormalizeWord(b);
    LowerAppend(a, b);
  }

  /** Whitespace between two strings is dropped by normalising. */
  lemma NormalizeDropsBlank(a: string, w: string, b: string)
    requires Blank(w)
    ensures Normalize(a + w + b) == Normalize(a) + Normalize(b)
  {
    var k := KeepTokenChars(a + w + b);
    NormalizeIgnoresStrip(a + w + b);
    NormalizeIgnoresStrip(a);
    NormalizeIgnoresStrip(b);
    KeepTokenCharsAppend(a + w, b);
    KeepTokenCharsAppend(a, w);
    KeepTokenCharsBlank(w);
    assert k == KeepTokenChars(a) + KeepTokenChars(b);
    LowerAppend(KeepTokenChars(a), KeepTokenChars(b));
  }

  /** A string of kept characters only changes case. */
  lemma NormalizeWord(s: string)
    requires forall i :: 0 <= i < |s| ==> IsTokenChar(s[i])
    ensures Normalize(s) == Lower(s)
  {
    NormalizeIgnoresStrip(s);
    KeepTokenCharsKeeps(s);
  }

  /** The end of the run of characters satisfying `p` that starts at `i`. */
  function RunEnd(q: string, i: nat, p: char -> bool): (e: nat)
    requires i <= |q|
    ensures i <= e <= |q| && (e == |q| || !p(q[e]))
    ensures forall j :: i <= j < e ==> p(q[j])
    decreases |q| - i
  {
    if i < |q| && p(q[i]) then RunEnd(q, i + 1, p) else i
  }

  /**
   * The group `[IVXLCivxlc0-9\.\- ]+` after `\s*` from position `s`. `\s*`
   * first takes all the whitespace up to `k` and gives it back one character
   * at a time until the group can start; the group is then the longest run.
   */
  function Backtrack(q: string, s: nat, k: nat): (g: Option<(nat, nat)>)
    requires s <= k <= |q|
    ensures g.Some? ==> s <= g.value.0 < g.value.1 <= |q|
    ensures g.Some? ==> forall j :: g.value.0 <= j < g.value.1 ==> InGroupClass(q[j])
    decreases k
  {
    if k < |q| && InGroupClass(q[k]) then Some((k, RunEnd(q, k, InGroupClass)))
    else if k == s then None
    else Backtrack(q, s, k - 1)
  }

  function GroupAfter(q: string, s: nat): (g: Option<(nat, nat)>)
    requires s <= |q|
  {
    Backtrack(q, s, RunEnd(q, s, IsSpace))
  }

  /** The marker alternatives `Figure|FIGURE|Fig|Fig\.`, in the order they are tried. */
  const Markers: seq<string> := ["Figure", "FIGURE", "Fig", "Fig."]

  /**
   * The first marker alternative from `a` on that occurs at `p` and is
   * followed by a group: the span of that group, which ends the match.
   */
  function MarkerMatchFrom(q: string, p: nat, a: nat): (g: Option<(nat, nat)>)
    requires p <= |q|
    ensures g.Some? ==> p < g.value.0 < g.value.1 <= |q|
    ensures g.Some? ==> forall j :: g.value.0 <= j < g.value.1 ==> InGroupClass(q[j])
    decreases |Markers| - a
  {
    if a >= |Markers| then None
    else if OccursAt(Markers[a], q, p) && GroupAfter(q, p + |Markers[a]|).Some? then
      GroupAfter(q, p + |Markers[a]|)
    else MarkerMatchFrom(q, p, a + 1)
  }

  /** `{tok}` when `tok` is truthy, as `if tok: found.add(tok)`. */
  function TokenSet(tok: string): set<string> {
    if tok == "" then {} else {tok}
  }

  /** The tokens found by `finditer` with the marker pattern from position `p` on. */
  function MarkerTokens(q: string, p: nat): set<string>
    requires p <= |q|
    decreases |q| - p
  {
    if p == |q| then {}
    else
      match MarkerMatchFrom(q, p, 0)
      case Some(g) => TokenSet(Normalize(q[g.0..g.1])) + MarkerTokens(q, g.1)
      case None => MarkerTokens(q, p + 1)
  }

  /** `\b` at position `p`: a word character on exactly one side. */
  predicate Boundary(q: string, p: nat)
    requires p <= |q|
  {
    (p > 0 && IsWordChar(q[p - 1])) != (p < |q| && IsWordChar(q[p]))
  }

  /**
   * `(?:\.[0-9]+)+\b` from position `x`: each repetition takes a dot and the
   * whole run of digits after it; the greedy loop takes as many repetitions as
   * it can and then gives them back until a word boundary follows.
   */
  function DottedTail(q: string, x: nat): (e: Option<nat>)
    requires x <= |q|
    ensures e.Some? ==> x < e.value <= |q| && Boundary(q, e.value)
    ensures e.Some? ==> q[x] == '.' && forall j :: x <= j < e.value ==> q[j] == '.' || IsDigit(q[j])
    decreases |q| - x
  {
    if x + 1 < |q| && q[x] == '.' && IsDigit(q[x + 1]) then
      var d := RunEnd(q, x + 1, IsDigit);
      match DottedTail(q, d)
      case Some(e) => Some(e)
      case None => if Boundary(q, d) then Some(d) else None
    else None
  }

  /** `\b([IVXLCivxlc0-9]+(?:\.[0-9]+)+)\b` at position `p`: the end of the match. */
  function PlainMatchAt(q: string, p: nat): (e: Option<nat>)
    requires p <= |q|
    ensures e.Some? ==> p < e.value <= |q|
    ensures e.Some? ==> forall j :: p <= j < e.value ==> IsRomanOrDigit(q[j]) || q[j] == '.'
    ensures e.Some? ==> exists j :: p <= j < e.value && q[j] == '.'
  {
    if p < |q| && IsRomanOrDigit(q[p]) && Boundary(q, p) then
      var r := RunEnd(q, p, IsRomanOrDigit);
      match DottedTail(q, r)
      case Some(e) => assert q[r] == '.'; Some(e)
      case None => None
    else None
  }

  /** The tokens found by `finditer` with the plain pattern from position `p` on. */
  function PlainTokens(q: string, p: nat): set<string>
    requires p <= |q|
    decreases |q| - p
  {
    if p == |q| then {}
    else
      match PlainMatchAt(q, p)
      case Some(e) => TokenSet(Normalize(q[p..e])) + PlainTokens(q, e)
      case None => PlainTokens(q, p + 1)
  }

  /** `set(extract_fig_ids_from_query(q))`; the list the source returns has these elements, once each. */
  function ExtractFigIds(q: string): set<string> {
    MarkerTokens(q, 0) + PlainTokens(q, 0)
  }

  /**
   * One `finditer` step of the marker scan from `p`: the normalised group of
   * the next match (empty when there is none) and where the scan resumes.
   */
  method NextMarkerToken(q: string, p: nat) returns (tok: string, next: nat)
    requires p < |q|
    ensures p < next <= |q|
    ensures MarkerTokens(q, p) == TokenSet(tok) + MarkerTokens(q, next)
  {
    var g := MarkerMatchFrom(q, p, 0);
    if g.Some? {
      tok, next := Normalize(q[g.value.0..g.value.1]), g.value.1;
    } else {
      tok, next := "", p + 1;
    }
  }

  /** One `finditer` step of the plain scan from `p`. */
  method NextPlainToken(q: string, p: nat) returns (tok: string, next: nat)
    requires p < |q|
    ensures p < next <= |q|
    ensures PlainTokens(q, p) == TokenSet(tok) + PlainTokens(q, next)
  {
    var e := PlainMatchAt(q, p);
    if e.Some? {
      tok, next := Normalize(q[p..e.value]), e.value;
    } else {
      tok, next := "", p + 1;
    }
  }

  /** The first `finditer` loop: the non-empty normalised groups of the marker pattern's matches. */
  method ScanMarkerTokens(q: string) returns (found: set<string>)
    ensures found == MarkerTokens(q, 0)
  {
    found := {};
    var p := 0;
    while p < |q|
      invariant p <= |q|
      invariant forall t :: t in MarkerTokens(q, 0) <==> t in found || t in MarkerTokens(q, p)
      decreases |q| - p
    {
      var tok, next := NextMarkerToken(q, p);
      if tok != "" {
        found := found + {tok};
      }
      p := next;
    }
    assert MarkerTokens(q, p) == {};
  }

  /** The second `finditer` loop: the non-empty normalised matches of the plain pattern. */
  method ScanPlainTokens(q: string) returns (found: set<string>)
    ensures found == PlainTokens(q, 0)
  {
    found := {};
    var p := 0;
    while p < |q|
      invariant p <= |q|
      invariant forall t :: t in PlainTokens(q, 0) <==> t in found || t in PlainTokens(q, p)
      decreases |q| - p
    {
      var tok, next := NextPlainToken(q, p);
      if tok != "" {
        found := found + {tok};
      }
      p := next;
    }
    assert PlainTokens(q, p) == {};
  }

  /**
   * `extract_fig_ids_from_query(q)`: both loops add to one set `found`,
   * which is returned as a list.
   */
  method ExtractFigIdsFromQuery(q: string) returns (ids: seq<string>)
    ensures NoDuplicates(ids)
    ensures forall t :: t in ids <==> t in ExtractFigIds(q)
  {
    var markers := ScanMarkerTokens(q);
    var plain := ScanPlainTokens(q);
    ids := ListOf(markers + plain);
  }

  /** An identifier is non-empty and made of `ivxlc`, digits, `.` and `-`. */
  predicate IsFigId(t: string) {
    t != "" && forall i :: 0 <= i < |t| ==> IsIdChar(t[i])
  }

  /** Normalising a piece of the group class gives identifier characters only. */
  lemma NormalizeGroup(s: string)
    requires forall i :: 0 <= i < |s| ==> InGroupClass(s[i])
    ensures forall i :: 0 <= i < |Normalize(s)| ==> IsIdChar(Normalize(s)[i])
  {
    NormalizeIgnoresStrip(s);
    var k := KeepTokenChars(s);
    KeepTokenCharsFrom(s);
    forall i | 0 <= i < |Normalize(s)| ensures IsIdChar(Normalize(s)[i]) {
      assert k[i] in k;
      assert Normalize(s)[i] == LowerChar(k[i]);
    }
  }

  /** Every kept character comes from the input. */
  lemma {:induction false} KeepTokenCharsFrom(s: string)
    ensures forall c :: c in KeepTokenChars(s) ==> c in s
    decreases |s|
  {
    if s != [] {
      KeepTokenCharsFrom(s[1..]);
      forall c | c in KeepTokenChars(s[1..]) ensures c in s {
        assert c in s[1..];
      }
    }
  }

  lemma {:induction false} MarkerTokensAreIds(q: string, p: nat)
    requires p <= |q|
    ensures forall t :: t in MarkerTokens(q, p) ==> IsFigId(t)
    decreases |q| - p
  {
    if p < |q| {
      match MarkerMatchFrom(q, p, 0)
      case Some(g) =>
        NormalizeGroup(q[g.0..g.1]);
        MarkerTokensAreIds(q, g.1);
      case None =>
        MarkerTokensAreIds(q, p + 1);
    }
  }

  lemma {:induction false} PlainTokensAreIds(q: string, p: nat)
    requires p <= |q|
    ensures forall t :: t in PlainTokens(q, p) ==> IsFigId(t)
    decreases |q| - p
  {
    if p < |q| {
      match PlainMatchAt(q, p)
      case Some(e) =>
        var t := q[p..e];
        assert forall i :: 0 <= i < |t| ==> InGroupClass(t[i]) by {
          forall i | 0 <= i < |t| ensures InGroupClass(t[i]) {
            assert t[i] == q[p + i];
          }
        }
        NormalizeGroup(t);
        PlainTokensAreIds(q, e);
      case None =>
        PlainTokensAreIds(q, p + 1);
    }
  }

  /** Every extracted identifier is non-empty and uses only `ivxlc0-9.-`. */
  lemma ExtractedAreIds(q: string)
    ensures forall t :: t in ExtractFigIds(q) ==> IsFigId(t)
  {
    MarkerTokensAreIds(q, 0);
    PlainTokensAreIds(q, 0);
  }

  /** Without a capital `F` no marker word can match. */
  lemma {:induction false} NoMarkerTokens(q: string, p: nat)
    requires p <= |q| && 'F' !in q
    ensures MarkerTokens(q, p) == {}
    decreases |q| - p
  {
    if p < |q| {
      forall a | 0 <= a < |Markers| ensures !OccursAt(Markers[a], q, p) {
        assert Markers[a][0] == 'F' && q[p] != 'F';
        if p + |Markers[a]| <= |q| {
          assert q[p..p + |Markers[a]|][0] == q[p];
        }
      }
      NoMarkerMatch(q, p, 0);
      NoMarkerTokens(q, p + 1);
    }
  }

  lemma {:induction false} NoMarkerMatch(q: string, p: nat, a: nat)
    requires p <= |q|
    requires forall b :: 0 <= b < |Markers| ==> !OccursAt(Markers[b], q, p)
    ensures MarkerMatchFrom(q, p, a) == None
    decreases |Markers| - a
  {
    if a < |Markers| {
      NoMarkerMatch(q, p, a + 1);
    }
  }

  /** Without a dot the plain pattern cannot match. */
  lemma {:induction false} NoPlainTokens(q: string, p: nat)
    requires p <= |q| && '.' !in q
    ensures PlainTokens(q, p) == {}
    decreases |q| - p
  {
    if p < |q| {
      assert PlainMatchAt(q, p) == None;
      NoPlainTokens(q, p + 1);
    }
  }

  /**
   * A query with neither a capital `F` nor a dot yields no identifier at all:
   * the empty query, a lower-case `figure 3`, or `Table 1`.
   */
  lemma NoIdsWithoutMarkerOrDot(q: string)
    requires 'F' !in q && '.' !in q
    ensures ExtractFigIds(q) == {}
  {
    NoMarkerTokens(q, 0);
    NoPlainTokens(q, 0);
  }

  /** A token found by the marker scan's first match, at position 0, is extracted. */
  lemma MarkerTokenAtStart(q: string, s: nat, e: nat, tok: string)
    requires 0 < |q| && MarkerMatchFrom(q, 0, 0) == Some((s, e))
    requires tok != "" && Normalize(q[s..e]) == tok
    ensures tok in ExtractFigIds(q)
  {
  }

  /** `III.5` normalises to `iii.5`. */
  lemma NormalizeRomanId()
    ensures Normalize("III.5") == "iii.5"
  {
    NormalizeWord("III.5");
    assert Lower("III.5") == "iii.5" by {
      assert LowerChar('I') == 'i';
    }
  }

  /** `3.2` is already normalised. */
  lemma NormalizeArabicId()
    ensures Normalize("3.2") == "3.2"
  {
    NormalizeWord("3.2");
    assert Lower("3.2") == "3.2" by {
      assert LowerChar('3') == '3' && LowerChar('.') == '.' && LowerChar('2') == '2';
    }
  }

  /** The docstring's first example: `Figure III.5` gives `iii.5`. */
  lemma FigureRomanExtracts()
    ensures "iii.5" in ExtractFigIds("Figure III.5")
  {
    var q := "Figure III.5";
    assert OccursAt(Markers[0], q, 0) by { assert q[0..6] == "Figure"; }
    assert RunEnd(q, 6, IsSpace) == 7 by { assert IsSpace(q[6]) && !IsSpace(q[7]); }
    assert RunEnd(q, 7, InGroupClass) == 12 by {
      assert RunEnd(q, 12, InGroupClass) == 12;
      assert InGroupClass(q[11]) && InGroupClass(q[10]) && InGroupClass(q[9]) && InGroupClass(q[8]) && InGroupClass(q[7]);
    }
    assert GroupAfter(q, 6) == Some((7, 12));
    assert MarkerMatchFrom(q, 0, 0) == Some((7, 12));
    assert q[7..12] == "III.5" by {
      assert forall i :: 0 <= i < 5 ==> q[7..12][i] == "III.5"[i];
    }
    NormalizeRomanId();
    MarkerTokenAtStart(q, 7, 12, "iii.5");
  }

  /** The docstring's second example: `Fig 3.2` gives `3.2`, through the third marker alternative. */
  lemma FigureArabicExtracts()
    ensures "3.2" in ExtractFigIds("Fig 3.2")
  {
    var q := "Fig 3.2";
    assert !OccursAt(Markers[0], q, 0) && !OccursAt(Markers[1], q, 0);
    assert OccursAt(Markers[2], q, 0) by { assert q[0..3] == "Fig"; }
    assert RunEnd(q, 3, IsSpace) == 4 by { assert IsSpace(q[3]) && !IsSpace(q[4]); }
    assert RunEnd(q, 4, InGroupClass) == 7 by {
      assert RunEnd(q, 7, InGroupClass) == 7;
      assert InGroupClass(q[6]) && InGroupClass(q[5]) && InGroupClass(q[4]);
    }
    assert GroupAfter(q, 3) == Some((4, 7));
    assert MarkerMatchFrom(q, 0, 0) == Some((4, 7));
    assert q[4..7] == "3.2" by {
      assert forall i :: 0 <= i < 3 ==> q[4..7][i] == "3.2"[i];
    }
    NormalizeArabicId();
    MarkerTokenAtStart(q, 4, 7, "3.2");
  }

  /** The docstring's third example: a bare `III.5` is found by the plain pattern. */
  lemma PlainRomanExtracts()
    ensures "iii.5" in ExtractFigIds("III.5")
  {
    var q := "III.5";
    assert Boundary(q, 0) && IsRomanOrDigit(q[0]);
    assert RunEnd(q, 0, IsRomanOrDigit) == 3 by {
      assert !IsRomanOrDigit(q[3]);
      assert RunEnd(q, 3, IsRomanOrDigit) == 3;
    }
    assert RunEnd(q, 4, IsDigit) == 5 by { assert RunEnd(q, 5, IsDigit) == 5; }
    assert DottedTail(q, 5) == None;
    assert Boundary(q, 5);
    assert DottedTail(q, 3) == Some(5);
    assert PlainMatchAt(q, 0) == Some(5);
    assert q[0..5] == q;
    NormalizeRomanId();
    assert "iii.5" in PlainTokens(q, 0);
  }
}
