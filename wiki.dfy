/** Cleaning of Wikipedia article text and the filters around it
    (research/data-extractors/wiki_articles_extractor.py).

    The three `re` substitutions of `clean_wikipedia_content` are written out as
    left-to-right scanners that make the choices Python's regular-expression engine
    makes for these particular patterns; each scanner has a separate definition of
    what its pattern matches, and lemmas tie the two together. The network calls and
    the thread pool are not modelled: the fetched pages are a parameter. */
module WikiExtractor {
  import opened Text

  /** `s` has `t` at position p, compared character by character. */
  predicate StartsAt(s: string, p: nat, t: string)
    decreases |t|
  {
    p + |t| <= |s| && (t == [] || (s[p] == t[0] && StartsAt(s, p + 1, t[1..])))
  }

  lemma {:induction false} StartsAtSlice(s: string, p: nat, t: string)
    ensures StartsAt(s, p, t) <==> p + |t| <= |s| && s[p..p + |t|] == t
    decreases |t|
  {
    if t != [] && p + |t| <= |s| {
      StartsAtSlice(s, p + 1, t[1..]);
      assert s[p..p + |t|] == [s[p]] + s[p + 1..p + 1 + |t[1..]|];
      assert t == [t[0]] + t[1..];
    }
  }

  // ---------------------------------------------------------------------------
  // Stage 1: `re.sub(sections_to_remove, "", text, flags=re.DOTALL)`.
  // Each alternative is `(== Name ==.*?)(?=(== .+? ==|$))`.

  const References: string := "== References =="
  const ExternalLinks: string := "== External links =="
  const Gallery: string := "== Gallery =="
  const Footnotes: string := "== Footnotes =="

  /** The length of the removable section header at p, trying the alternatives in
      the pattern's order. */
  function NamedHeaderAt(s: string, p: nat): (h: Option<nat>)
    ensures h.Some? ==> h.value > 0 && p + h.value <= |s|
  {
    if StartsAt(s, p, References) then Some(|References|)
    else if StartsAt(s, p, ExternalLinks) then Some(|ExternalLinks|)
    else if StartsAt(s, p, Gallery) then Some(|Gallery|)
    else if StartsAt(s, p, Footnotes) then Some(|Footnotes|)
    else None
  }

  /** " ==" occurs at j or later. */
  predicate CloserFrom(s: string, j: nat)
    decreases |s| - j
  {
    j + 3 <= |s| && (StartsAt(s, j, " ==") || CloserFrom(s, j + 1))
  }

  /** The lookahead `== .+? ==`: "== ", at least one character, then " ==". */
  predicate NextHeaderAt(s: string, e: nat) {
    StartsAt(s, e, "== ") && CloserFrom(s, e + 4)
  }

  /** Where a removed section may stop: before a following header, at the end of the
      text, or before a final newline (which is where `$` also matches). */
  predicate SectionBoundary(s: string, e: nat) {
    NextHeaderAt(s, e) || e == |s| || (e + 1 == |s| && s[e] == '\n')
  }

  /** The lazy `.*?` stops at the first boundary. */
  function SectionEnd(s: string, q: nat): (e: nat)
    requires q <= |s|
    ensures q <= e <= |s| && SectionBoundary(s, e)
    ensures forall i :: q <= i < e ==> !SectionBoundary(s, i)
    decreases |s| - q
  {
    if SectionBoundary(s, q) then q else SectionEnd(s, q + 1)
  }

  function RemoveSectionsFrom(s: string, p: nat): (r: string)
    requires p <= |s|
    ensures |r| <= |s| - p
    decreases |s| - p
  {
    if p == |s| then []
    else match NamedHeaderAt(s, p)
      case Some(h) => RemoveSectionsFrom(s, SectionEnd(s, p + h))
      case None => [s[p]] + RemoveSectionsFrom(s, p + 1)
  }

  function RemoveSections(s: string): string {
    RemoveSectionsFrom(s, 0)
  }

  lemma RemoveSectionsStep(s: string, p: nat)
    requires p < |s| && NamedHeaderAt(s, p).None?
    ensures RemoveSectionsFrom(s, p) == [s[p]] + RemoveSectionsFrom(s, p + 1)
  {
  }

  /** Text in which no removable section starts is copied unchanged. */
  lemma RemoveSectionsKeepsPlainText(s: string, p: nat, q: nat)
    requires p <= q <= |s|
    requires forall i :: p <= i < q ==> NamedHeaderAt(s, i).None?
    ensures RemoveSectionsFrom(s, p) == s[p..q] + RemoveSectionsFrom(s, q)
  {
    var f := (i: nat) => if i <= |s| then RemoveSectionsFrom(s, i) else [];
    forall i | p <= i < q ensures f(i) == [s[i]] + f(i + 1) {
      RemoveSectionsStep(s, i);
    }
    CopiedRun(s, f, p, q);
  }

  /** A removable section is cut from its header to the next `== … ==` header, the
      end of the text or a final newline, whichever comes first; what follows is
      cleaned in the same way. */
  lemma SectionCut(s: string, p: nat)
    requires p < |s| && NamedHeaderAt(s, p).Some?
    ensures var e := SectionEnd(s, p + NamedHeaderAt(s, p).value);
      RemoveSectionsFrom(s, p) == RemoveSectionsFrom(s, e)
      && (e == |s| || (e + 1 == |s| && s[e] == '\n') || StartsAt(s, e, "== "))
  {
  }

  // ---------------------------------------------------------------------------
  // Stage 2: `re.sub(r"==[^=]*==", "", text)`.

  /** The first occurrence of `c` at or after q, or the length when there is none
      (a `[^c]*` run followed by `c`). */
  function FirstFrom(s: string, q: nat, c: char): (j: nat)
    requires q <= |s|
    ensures q <= j <= |s| && (j < |s| ==> s[j] == c)
    ensures forall i :: q <= i < j ==> s[i] != c
    decreases |s| - q
  {
    if q == |s| || s[q] == c then q else FirstFrom(s, q + 1, c)
  }

  /** The end of the header match at p: "==", the run of non-'=' characters (no
      shorter run can be followed by "=="), then "==". */
  function HeaderEnd(s: string, p: nat): Option<nat>
    requires p <= |s|
  {
    if p + 2 <= |s| && s[p] == '=' && s[p + 1] == '=' then
      var j := FirstFrom(s, p + 2, '=');
      if j + 1 < |s| && s[j + 1] == '=' then Some(j + 2) else None
    else None
  }

  /** What `==[^=]*==` matches. */
  predicate IsHeader(t: string) {
    |t| >= 4 && t[0] == '=' && t[1] == '=' && t[|t| - 2] == '=' && t[|t| - 1] == '='
    && forall i :: 2 <= i < |t| - 2 ==> t[i] != '='
  }

  /** The scanner finds a header at p exactly when the text from p to some e matches
      the pattern, and then that e is the only one. */
  lemma HeaderEndMatches(s: string, p: nat, e: nat)
    requires p <= e <= |s|
    ensures HeaderEnd(s, p) == Some(e) <==> IsHeader(s[p..e])
  {
    if HeaderEnd(s, p) == Some(e) {
      HeaderEndSound(s, p, e);
    }
    if IsHeader(s[p..e]) {
      HeaderEndComplete(s, p, e);
    }
  }

  lemma HeaderEndSound(s: string, p: nat, e: nat)
    requires p <= e <= |s| && HeaderEnd(s, p) == Some(e)
    ensures IsHeader(s[p..e])
  {
    var t := s[p..e];
    forall i | 2 <= i < |t| - 2 ensures t[i] != '=' {
      assert t[i] == s[p + i];
    }
  }

  lemma HeaderEndComplete(s: string, p: nat, e: nat)
    requires p <= e <= |s| && IsHeader(s[p..e])
    ensures HeaderEnd(s, p) == Some(e)
  {
    var t := s[p..e];
    assert s[p] == t[0] && s[p + 1] == t[1];
    forall i | p + 2 <= i < e - 2 ensures s[i] != '=' {
      assert s[i] == t[i - p];
    }
    assert s[e - 2] == t[|t| - 2] && s[e - 1] == t[|t| - 1];
    var j := FirstFrom(s, p + 2, '=');
    assert j == e - 2;
  }

  function RemoveHeadersFrom(s: string, p: nat): (r: string)
    requires p <= |s|
    ensures |r| <= |s| - p
    decreases |s| - p
  {
    if p == |s| then []
    else match HeaderEnd(s, p)
      case Some(e) => RemoveHeadersFrom(s, e)
      case None => [s[p]] + RemoveHeadersFrom(s, p + 1)
  }

  function RemoveHeaders(s: string): string {
    RemoveHeadersFrom(s, 0)
  }

  lemma RemoveHeadersStep(s: string, p: nat)
    requires p < |s| && HeaderEnd(s, p).None?
    ensures RemoveHeadersFrom(s, p) == [s[p]] + RemoveHeadersFrom(s, p + 1)
  {
  }

  /** Text in which no header match starts is copied unchanged. */
  lemma RemoveHeadersKeepsPlainText(s: string, p: nat, q: nat)
    requires p <= q <= |s|
    requires forall i :: p <= i < q ==> HeaderEnd(s, i).None?
    ensures RemoveHeadersFrom(s, p) == s[p..q] + RemoveHeadersFrom(s, q)
  {
    var f := (i: nat) => if i <= |s| then RemoveHeadersFrom(s, i) else [];
    forall i | p <= i < q ensures f(i) == [s[i]] + f(i + 1) {
      RemoveHeadersStep(s, i);
    }
    CopiedRun(s, f, p, q);
  }

  /** A header match is deleted whole, and scanning resumes right after it. */
  lemma HeaderDeleted(s: string, p: nat, e: nat)
    requires p <= e <= |s| && IsHeader(s[p..e])
    ensures p < |s| && RemoveHeadersFrom(s, p) == RemoveHeadersFrom(s, e)
  {
    HeaderEndMatches(s, p, e);
  }

  /** Text without an '=' has no header. */
  lemma RemoveHeadersWithoutEquals(s: string)
    requires forall i :: 0 <= i < |s| ==> s[i] != '='
    ensures RemoveHeaders(s) == s
  {
    forall i | 0 <= i < |s| ensures HeaderEnd(s, i).None? {
    }
    RemoveHeadersKeepsPlainText(s, 0, |s|);
  }

  // ---------------------------------------------------------------------------
  // Stage 3: split around `{\displaystyle …}` segments, then
  // `re.sub(r"(\s{2,}|\n{2,})", " ", part)` outside them.

  const Displaystyle: string := "\\displaystyle"

  /** The first non-whitespace position at or after q, or the length. */
  function SkipSpaces(s: string, q: nat): (j: nat)
    requires q <= |s|
    ensures q <= j <= |s| && (j < |s| ==> !IsSpace(s[j]))
    ensures forall i :: q <= i < j ==> IsSpace(s[i])
    decreases |s| - q
  {
    if q == |s| || !IsSpace(s[q]) then q else SkipSpaces(s, q + 1)
  }

  /** "\displaystyle" at q. */
  predicate DisplaystyleAt(s: string, q: nat) {
    q + |Displaystyle| <= |s| && s[q..q + |Displaystyle|] == Displaystyle
  }

  lemma DisplaystyleInPiece(s: string, a: nat, b: nat, w: nat)
    requires a + w + |Displaystyle| <= b <= |s|
    ensures DisplaystyleAt(s[a..b], w) <==> DisplaystyleAt(s, a + w)
  {
    SliceOfSlice(s, a, b, w, w + |Displaystyle|);
  }

  /** The end of the match of `\{\s*\\displaystyle[^\}]*\}` at p. The whitespace run
      and the run of non-'}' characters are both taken whole: a shorter run would end
      before a whitespace or a non-'}' character, where the pattern cannot go on. */
  function LatexEnd(s: string, p: nat): (e: Option<nat>)
    requires p <= |s|
    ensures e.Some? ==> p < e.value <= |s|
  {
    if p < |s| && s[p] == '{' then
      var q := SkipSpaces(s, p + 1);
      if DisplaystyleAt(s, q) then
        var r := FirstFrom(s, q + |Displaystyle|, '}');
        if r < |s| then Some(r + 1) else None
      else None
    else None
  }

  /** `t` has its whitespace run end at q, "\displaystyle" there, and no '}' between
      that and its last character. */
  ghost predicate LatexShape(t: string, q: nat) {
    1 <= q && q + |Displaystyle| < |t|
    && (forall i :: 1 <= i < q ==> IsSpace(t[i]))
    && DisplaystyleAt(t, q)
    && (forall i :: q + |Displaystyle| <= i < |t| - 1 ==> t[i] != '}')
  }

  /** What `\{\s*\\displaystyle[^\}]*\}` matches. */
  ghost predicate IsLatex(t: string) {
    |t| >= 2 && t[0] == '{' && t[|t| - 1] == '}' && exists q :: LatexShape(t, q)
  }

  /** The scanner finds a LaTeX segment from p to e exactly when that text matches
      the pattern. */
  lemma LatexEndMatches(s: string, p: nat, e: nat)
    requires p <= e <= |s|
    ensures LatexEnd(s, p) == Some(e) <==> IsLatex(s[p..e])
  {
    if LatexEnd(s, p) == Some(e) {
      LatexEndSound(s, p, e);
    }
    if IsLatex(s[p..e]) {
      LatexEndComplete(s, p, e);
    }
  }

  lemma LatexEndSound(s: string, p: nat, e: nat)
    requires p <= e <= |s| && LatexEnd(s, p) == Some(e)
    ensures IsLatex(s[p..e])
  {
    var q := SkipSpaces(s, p + 1);
    LatexShapeOfPiece(s, p, e, q - p);
  }

  /** The reading of `LatexShapeInWhole` the other way round. */
  lemma LatexShapeOfPiece(s: string, p: nat, e: nat, w: nat)
    requires p + w + |Displaystyle| < e <= |s| && 1 <= w && s[p] == '{' && s[e - 1] == '}'
    requires DisplaystyleAt(s, p + w)
    requires forall i :: p + 1 <= i < p + w ==> IsSpace(s[i])
    requires forall i :: p + w + |Displaystyle| <= i < e - 1 ==> s[i] != '}'
    ensures IsLatex(s[p..e])
  {
    var t := s[p..e];
    DisplaystyleInPiece(s, p, e, w);
    RunInPiece(s, p, e, 1, w, IsSpace);
    RunInPiece(s, p, e, w + |Displaystyle|, e - p - 1, c => c != '}');
    assert t[0] == s[p] && t[|t| - 1] == s[e - 1];
    assert LatexShape(t, w);
  }

  lemma LatexEndComplete(s: string, p: nat, e: nat)
    requires p <= e <= |s| && IsLatex(s[p..e])
    ensures LatexEnd(s, p) == Some(e)
  {
    var w: nat :| LatexShape(s[p..e], w);
    LatexShapeInWhole(s, p, e, w);
    SkipSpacesStops(s, p + 1, p + w);
    FirstCloseStops(s, p + w + |Displaystyle|, e - 1);
    LatexEndAt(s, p, p + w, e);
  }

  /** A LaTeX shape of the piece from p to e, read in the whole text. */
  lemma LatexShapeInWhole(s: string, p: nat, e: nat, w: nat)
    requires p <= e <= |s| && |s[p..e]| >= 2 && s[p..e][0] == '{' && s[p..e][e - p - 1] == '}'
    requires LatexShape(s[p..e], w)
    ensures p + w + |Displaystyle| < e && s[p] == '{' && s[e - 1] == '}'
    ensures DisplaystyleAt(s, p + w) && !IsSpace(s[p + w])
    ensures forall i :: p + 1 <= i < p + w ==> IsSpace(s[i])
    ensures forall i :: p + w + |Displaystyle| <= i < e - 1 ==> s[i] != '}'
  {
    var t := s[p..e];
    DisplaystyleInPiece(s, p, e, w);
    assert s[p + w] == t[w] == Displaystyle[0];
    RunInPiece(s, p, e, 1, w, IsSpace);
    RunInPiece(s, p, e, w + |Displaystyle|, e - p - 1, c => c != '}');
  }

  lemma LatexEndAt(s: string, p: nat, q: nat, e: nat)
    requires p < q < e <= |s| && s[p] == '{' && SkipSpaces(s, p + 1) == q && DisplaystyleAt(s, q)
    requires q + |Displaystyle| <= e - 1 && FirstFrom(s, q + |Displaystyle|, '}') == e - 1
    ensures LatexEnd(s, p) == Some(e)
  {
  }

  /** The whitespace run from q ends at the first non-whitespace character. */
  lemma SkipSpacesStops(s: string, q: nat, j: nat)
    requires q <= j < |s| && !IsSpace(s[j])
    requires forall i :: q <= i < j ==> IsSpace(s[i])
    ensures SkipSpaces(s, q) == j
  {
  }

  /** The search for '}' from q ends at the first '}'. */
  lemma FirstCloseStops(s: string, q: nat, j: nat)
    requires q <= j < |s| && s[j] == '}'
    requires forall i :: q <= i < j ==> s[i] != '}'
    ensures FirstFrom(s, q, '}') == j
  {
  }

  /** A match inside a piece of the text is a match in the whole text. */
  lemma LatexInPiece(s: string, a: nat, b: nat, i: nat, e: nat)
    requires a <= b <= |s| && i <= e <= b - a
    requires LatexEnd(s[a..b], i) == Some(e)
    ensures LatexEnd(s, a + i) == Some(a + e)
  {
    LatexEndSound(s[a..b], i, e);
    assert IsLatex(s[a + i..a + e]) by {
      SliceOfSlice(s, a, b, i, e);
    }
    LatexEndComplete(s, a + i, a + e);
  }

  /** No LaTeX segment starts in `t`. */
  predicate NoLatexIn(t: string) {
    forall i :: 0 <= i < |t| ==> LatexEnd(t, i).None?
  }

  /** `re.split` with a capturing group: the text between matches, alternating with
      the matches themselves, starting and ending with (possibly empty) text. */
  function SplitFrom(s: string, start: nat, p: nat): seq<string>
    requires start <= p <= |s|
    decreases |s| - p
  {
    if p == |s| then [s[start..]]
    else match LatexEnd(s, p)
      case Some(e) => [s[start..p], s[p..e]] + SplitFrom(s, e, e)
      case None => SplitFrom(s, start, p + 1)
  }

  function SplitLatex(s: string): seq<string> {
    SplitFrom(s, 0, 0)
  }

  lemma GapHasNoLatex(s: string, start: nat, p: nat)
    requires start <= p <= |s|
    requires forall i :: start <= i < p ==> LatexEnd(s, i).None?
    ensures NoLatexIn(s[start..p])
  {
    forall i | 0 <= i < p - start ensures LatexEnd(s[start..p], i).None? {
      if LatexEnd(s[start..p], i).Some? {
        LatexInPiece(s, start, p, i, LatexEnd(s[start..p], i).value);
      }
    }
  }

  /** The split loses nothing, its odd parts are LaTeX segments, and no LaTeX segment
      starts in its even parts. */
  lemma {:induction false} SplitFromSpec(s: string, start: nat, p: nat)
    requires start <= p <= |s|
    requires forall i :: start <= i < p ==> LatexEnd(s, i).None?
    ensures SplitShape(SplitFrom(s, start, p), s[start..])
    decreases |s| - p
  {
    if p == |s| {
      GapHasNoLatex(s, start, p);
      assert s[start..p] == s[start..];
      SplitAtEnd(s, start);
    } else if LatexEnd(s, p).Some? {
      var e := LatexEnd(s, p).value;
      SplitFromSpec(s, e, e);
      GapHasNoLatex(s, start, p);
      LatexEndSound(s, p, e);
      SplitAtLatex(s, start, p, e);
    } else {
      SplitFromSpec(s, start, p + 1);
    }
  }

  lemma SplitAtEnd(s: string, start: nat)
    requires start <= |s| && NoLatexIn(s[start..])
    ensures SplitShape(SplitFrom(s, start, |s|), s[start..])
  {
    assert SplitFrom(s, start, |s|) == [s[start..]];
    SplitShapeSingle(s[start..]);
  }

  lemma SplitShapeSingle(t: string)
    requires NoLatexIn(t)
    ensures SplitShape([t], t)
  {
    assert Flatten([t]) == t + Flatten([]);
  }

  lemma SplitAtLatex(s: string, start: nat, p: nat, e: nat)
    requires start <= p < |s| && LatexEnd(s, p) == Some(e) && p <= e <= |s|
    requires NoLatexIn(s[start..p]) && IsLatex(s[p..e])
    requires SplitShape(SplitFrom(s, e, e), s[e..])
    ensures SplitShape(SplitFrom(s, start, p), s[start..])
  {
    var rest := SplitFrom(s, e, e);
    assert SplitFrom(s, start, p) == [s[start..p], s[p..e]] + rest;
    SplitShapeCons(s[start..p], s[p..e], rest, s[e..]);
    SliceInThree(s, start, p, e);
  }

  /** `parts` is a split of `text` of the shape `re.split` produces. */
  ghost predicate SplitShape(parts: seq<string>, text: string) {
    |parts| % 2 == 1 && Flatten(parts) == text
    && (forall k :: 0 <= k < |parts| && k % 2 == 1 ==> IsLatex(parts[k]))
    && (forall k :: 0 <= k < |parts| && k % 2 == 0 ==> NoLatexIn(parts[k]))
  }

  lemma SplitShapeCons(gap: string, latex: string, rest: seq<string>, restText: string)
    requires NoLatexIn(gap) && IsLatex(latex) && SplitShape(rest, restText)
    ensures SplitShape([gap, latex] + rest, gap + (latex + restText))
  {
    var parts := [gap, latex] + rest;
    assert parts[2..] == rest;
    assert Flatten(parts) == gap + Flatten(parts[1..]);
    assert parts[1..][1..] == rest;
    forall k | 2 <= k < |parts| ensures parts[k] == rest[k - 2] {
    }
  }

  /** No two whitespace characters next to each other. */
  predicate NoAdjacentSpaces(s: string) {
    forall i :: 0 <= i < |s| - 1 ==> !(IsSpace(s[i]) && IsSpace(s[i + 1]))
  }

  /** The characters that are not whitespace, in order. */
  function NonSpace(s: string): (r: string)
    ensures forall i :: 0 <= i < |r| ==> !IsSpace(r[i])
  {
    if s == [] then [] else (if IsSpace(s[0]) then [] else [s[0]]) + NonSpace(s[1..])
  }

  lemma {:induction false} NonSpaceAppend(a: string, b: string)
    ensures NonSpace(a + b) == NonSpace(a) + NonSpace(b)
  {
    if a == [] {
      assert a + b == b;
    } else {
      assert (a + b)[1..] == a[1..] + b;
      NonSpaceAppend(a[1..], b);
    }
  }

  /** Each run of two or more whitespace characters becomes one space; a single
      whitespace character stays as it is. */
  function CollapseFrom(t: string, p: nat): string
    requires p <= |t|
    decreases |t| - p
  {
    if p == |t| then []
    else if IsSpace(t[p]) then
      var q := SkipSpaces(t, p);
      (if q - p >= 2 then " " else [t[p]]) + CollapseFrom(t, q)
    else [t[p]] + CollapseFrom(t, p + 1)
  }

  function CollapseSpaces(t: string): string {
    CollapseFrom(t, 0)
  }

  lemma CollapseHead(t: string, p: nat)
    requires p < |t| && !IsSpace(t[p])
    ensures CollapseFrom(t, p) != [] && CollapseFrom(t, p)[0] == t[p]
  {
  }

  /** Collapsing leaves no two adjacent whitespace characters. */
  lemma {:induction false} CollapseLeavesNoAdjacentSpaces(t: string, p: nat)
    requires p <= |t|
    ensures NoAdjacentSpaces(CollapseFrom(t, p))
    decreases |t| - p
  {
    if p < |t| {
      var r := CollapseFrom(t, p);
      if IsSpace(t[p]) {
        var q := SkipSpaces(t, p);
        var rest := CollapseFrom(t, q);
        CollapseLeavesNoAdjacentSpaces(t, q);
        if q < |t| {
          CollapseHead(t, q);
        }
        assert r[1..] == rest;
      } else {
        CollapseLeavesNoAdjacentSpaces(t, p + 1);
        assert r[1..] == CollapseFrom(t, p + 1);
      }
    }
  }

  /** Collapsing keeps every character that is not whitespace, in order. */
  lemma {:induction false} CollapseKeepsNonSpace(t: string, p: nat)
    requires p <= |t|
    ensures NonSpace(CollapseFrom(t, p)) == NonSpace(t[p..])
    decreases |t| - p
  {
    if p < |t| {
      if IsSpace(t[p]) {
        var q := SkipSpaces(t, p);
        CollapseKeepsNonSpace(t, q);
        var head := if q - p >= 2 then " " else [t[p]];
        NonSpaceAppend(head, CollapseFrom(t, q));
        AllSpaceHasNoNonSpace(t[p..q]);
        NonSpaceAppend(t[p..q], t[q..]);
        assert t[p..] == t[p..q] + t[q..];
      } else {
        CollapseKeepsNonSpace(t, p + 1);
        NonSpaceAppend([t[p]], CollapseFrom(t, p + 1));
        NonSpaceAppend([t[p]], t[p + 1..]);
        assert t[p..] == [t[p]] + t[p + 1..];
      }
    }
  }

  lemma {:induction false} AllSpaceHasNoNonSpace(s: string)
    requires forall i :: 0 <= i < |s| ==> IsSpace(s[i])
    ensures NonSpace(s) == []
  {
    if s != [] {
      AllSpaceHasNoNonSpace(s[1..]);
    }
  }

  /** Text without adjacent whitespace is left alone. */
  lemma {:induction false} CollapseKeepsTidyText(t: string, p: nat)
    requires p <= |t| && NoAdjacentSpaces(t)
    ensures CollapseFrom(t, p) == t[p..]
    decreases |t| - p
  {
    if p < |t| {
      if IsSpace(t[p]) {
        var q := SkipSpaces(t, p);
        if p + 1 < |t| {
          assert !IsSpace(t[p + 1]);
        }
        assert q == p + 1;
        CollapseKeepsTidyText(t, q);
      } else {
        CollapseKeepsTidyText(t, p + 1);
      }
      assert t[p..] == [t[p]] + t[p + 1..];
    }
  }

  /** One part after the split: LaTeX is kept, other text has its whitespace collapsed
      (the `re.match` test at the part's start). */
  function CleanPart(part: string): string {
    if LatexEnd(part, 0).Some? then part else CollapseSpaces(part)
  }

  /** Each part cleaned on its own. */
  function CleanedParts(parts: seq<string>): seq<string> {
    seq(|parts|, k requires 0 <= k < |parts| => CleanPart(parts[k]))
  }

  /** `clean_wikipedia_content` as a function of its input. */
  function CleanedContent(content: string): string {
    Flatten(CleanedParts(SplitLatex(RemoveHeaders(RemoveSections(content)))))
  }

  /** `clean_wikipedia_content`. */
  method CleanWikipediaContent(articleContent: string) returns (cleanedContent: string)
    ensures cleanedContent == CleanedContent(articleContent)
  {
    var content := RemoveSections(articleContent);
    content := RemoveHeaders(content);
    var parts := SplitLatex(content);
    var cleanedParts := CleanEachPart(parts);
    cleanedContent := Flatten(cleanedParts);
  }

  /** The loop over the parts of `clean_wikipedia_content`. */
  method CleanEachPart(parts: seq<string>) returns (cleanedParts: seq<string>)
    ensures cleanedParts == CleanedParts(parts)
  {
    cleanedParts := [];
    for k := 0 to |parts|
      invariant |cleanedParts| == k
      invariant forall j :: 0 <= j < k ==> cleanedParts[j] == CleanPart(parts[j])
    {
      var part := parts[k];
      if LatexEnd(part, 0).None? {
        part := CollapseSpaces(part);
      }
      cleanedParts := cleanedParts + [part];
    }
  }

  /** After the two deletions, the text is split without loss into LaTeX segments,
      which come out verbatim, and the text between them, which comes out with its
      whitespace runs collapsed and every other character kept in order. */
  lemma CleanedContentParts(content: string)
    ensures var text := RemoveHeaders(RemoveSections(content));
      var parts := SplitLatex(text);
      SplitShape(parts, text)
      && (forall k :: 0 <= k < |parts| && k % 2 == 1 ==>
            CleanPart(parts[k]) == parts[k])
      && (forall k :: 0 <= k < |parts| && k % 2 == 0 ==>
            CleanPart(parts[k]) == CollapseSpaces(parts[k])
            && NoAdjacentSpaces(CleanPart(parts[k]))
            && NonSpace(CleanPart(parts[k])) == NonSpace(parts[k]))
  {
    var text := RemoveHeaders(RemoveSections(content));
    var parts := SplitLatex(text);
    SplitFromSpec(text, 0, 0);
    assert text[0..] == text;
    forall k | 0 <= k < |parts| && k % 2 == 1
      ensures CleanPart(parts[k]) == parts[k]
    {
      LatexEndMatches(parts[k], 0, |parts[k]|);
      assert parts[k][0..|parts[k]|] == parts[k];
    }
    forall k | 0 <= k < |parts| && k % 2 == 0
      ensures CleanPart(parts[k]) == CollapseSpaces(parts[k])
      ensures NoAdjacentSpaces(CleanPart(parts[k]))
      ensures NonSpace(CleanPart(parts[k])) == NonSpace(parts[k])
    {
      assert NoLatexIn(parts[k]);
      if parts[k] != [] {
        assert LatexEnd(parts[k], 0).None?;
      }
      CollapseLeavesNoAdjacentSpaces(parts[k], 0);
      CollapseKeepsNonSpace(parts[k], 0);
      assert parts[k][0..] == parts[k];
    }
  }

  // ---------------------------------------------------------------------------
  // fetch_category_articles: the acceptance rule and the truncation

  /** `str.split()`: the maximal runs of non-whitespace characters. */
  function WordsFrom(s: string, p: nat): seq<string>
    requires p <= |s|
    decreases |s| - p
  {
    var q := SkipSpaces(s, p);
    if q == |s| then [] else
      var e := WordEnd(s, q);
      [s[q..e]] + WordsFrom(s, e)
  }

  /** The first whitespace position at or after q, or the length. */
  function WordEnd(s: string, q: nat): (j: nat)
    requires q <= |s|
    ensures q <= j <= |s| && (j < |s| ==> IsSpace(s[j]))
    ensures forall i :: q <= i < j ==> !IsSpace(s[i])
    decreases |s| - q
  {
    if q == |s| || IsSpace(s[q]) then q else WordEnd(s, q + 1)
  }

  function Words(s: string): seq<string> {
    WordsFrom(s, 0)
  }

  /** The words are non-empty, hold no whitespace, and together are exactly the
      text's non-whitespace characters. */
  lemma {:induction false} WordsSpec(s: string, p: nat)
    requires p <= |s|
    ensures var w := WordsFrom(s, p);
      (forall k :: 0 <= k < |w| ==> w[k] != [] && forall i :: 0 <= i < |w[k]| ==> !IsSpace(w[k][i]))
      && Flatten(w) == NonSpace(s[p..])
    decreases |s| - p
  {
    var q := SkipSpaces(s, p);
    LeadingSpacesDropped(s, p);
    if q < |s| {
      var e := WordEnd(s, q);
      WordsSpec(s, e);
      FirstWord(s, q);
      var w := WordsFrom(s, p);
      assert w == [s[q..e]] + WordsFrom(s, e);
      forall k | 0 <= k < |w| ensures w[k] != [] && forall i :: 0 <= i < |w[k]| ==> !IsSpace(w[k][i]) {
        if k > 0 {
          assert w[k] == WordsFrom(s, e)[k - 1];
        }
      }
    }
  }

  lemma LeadingSpacesDropped(s: string, p: nat)
    requires p <= |s|
    ensures NonSpace(s[p..]) == NonSpace(s[SkipSpaces(s, p)..])
  {
    var q := SkipSpaces(s, p);
    AllSpaceHasNoNonSpace(s[p..q]);
    NonSpaceAppend(s[p..q], s[q..]);
    assert s[p..] == s[p..q] + s[q..];
  }

  lemma FirstWord(s: string, q: nat)
    requires q <= |s|
    ensures NonSpace(s[q..]) == s[q..WordEnd(s, q)] + NonSpace(s[WordEnd(s, q)..])
  {
    var e := WordEnd(s, q);
    NoSpaceIsNonSpace(s[q..e]);
    NonSpaceAppend(s[q..e], s[e..]);
    assert s[q..] == s[q..e] + s[e..];
  }

  lemma {:induction false} NoSpaceIsNonSpace(s: string)
    requires forall i :: 0 <= i < |s| ==> !IsSpace(s[i])
    ensures NonSpace(s) == s
  {
    if s != [] {
      NoSpaceIsNonSpace(s[1..]);
    }
  }

  /** The word count the code demands; its comment says 200. */
  const MinWords := 250

  /** What `get_page_content` hands back for a page that has an extract and a URL. */
  datatype Page = Page(title: string, extract: string, fullUrl: string)

  /** One entry of `articles_info`; `category` is its "label" key. */
  datatype Article = Article(title: string, category: string, text: string, url: string)

  /** The article kept for one fetched page. A page fetch that failed (`None`) makes
      the cleaning raise a TypeError, which the loop catches, so nothing is kept. */
  function AcceptedArticle(category: string, page: Option<Page>): Option<Article> {
    match page
    case None => None
    case Some(pg) =>
      var cleaned := CleanedContent(pg.extract);
      if cleaned != [] && pg.fullUrl != [] && |Words(cleaned)| >= MinWords
      then Some(Article(pg.title, category, cleaned, pg.fullUrl))
      else None
  }

  /** What every kept article satisfies. */
  predicate Acceptable(category: string, a: Article) {
    a.category == category && a.text != [] && a.url != [] && |Words(a.text)| >= MinWords
  }

  /** The articles kept from a run of page fetches, in the order they complete. */
  function AcceptedAll(category: string, pages: seq<Option<Page>>): seq<Article> {
    if pages == [] then []
    else
      AcceptedAll(category, pages[..|pages| - 1])
      + (match AcceptedArticle(category, pages[|pages| - 1])
         case Some(a) => [a]
         case None => [])
  }

  /** At most one article per page, and each one acceptable. */
  lemma {:induction false} AcceptedAllSpec(category: string, pages: seq<Option<Page>>)
    ensures |AcceptedAll(category, pages)| <= |pages|
    ensures forall a :: a in AcceptedAll(category, pages) ==> Acceptable(category, a)
  {
    if pages != [] {
      AcceptedAllSpec(category, pages[..|pages| - 1]);
    }
  }

  lemma {:induction false} AcceptedAllAppend(category: string, a: seq<Option<Page>>, b: seq<Option<Page>>)
    ensures AcceptedAll(category, a + b) == AcceptedAll(category, a) + AcceptedAll(category, b)
    decreases |b|
  {
    if b == [] {
      assert a + b == a;
    } else {
      assert (a + b)[..|a + b| - 1] == a + b[..|b| - 1];
      AcceptedAllAppend(category, a, b[..|b| - 1]);
    }
  }

  /** The articles kept from each listing. */
  function KeptPerListing(category: string, listings: seq<seq<Option<Page>>>): (kept: seq<seq<Article>>)
    ensures |kept| == |listings|
  {
    if listings == [] then []
    else [AcceptedAll(category, listings[0])] + KeptPerListing(category, listings[1..])
  }

  /** Keeping listing by listing keeps what keeping over all the pages does. */
  lemma {:induction false} KeptPerListingFlatten(category: string, listings: seq<seq<Option<Page>>>)
    ensures Flatten(KeptPerListing(category, listings)) == AcceptedAll(category, Flatten(listings))
  {
    if listings != [] {
      KeptPerListingFlatten(category, listings[1..]);
      AcceptedAllAppend(category, listings[0], Flatten(listings[1..]));
    }
  }

  lemma {:induction false} KeptPerListingAt(category: string, listings: seq<seq<Option<Page>>>, b: nat)
    requires b < |listings|
    ensures KeptPerListing(category, listings)[b] == AcceptedAll(category, listings[b])
    ensures KeptPerListing(category, listings)[b..] == KeptPerListing(category, listings[b..])
  {
    if b > 0 {
      var rest := KeptPerListing(category, listings[1..]);
      assert KeptPerListing(category, listings) == [AcceptedAll(category, listings[0])] + rest;
      KeptPerListingAt(category, listings[1..], b - 1);
      ConsSuffix(AcceptedAll(category, listings[0]), rest, b);
      assert listings[1..][b - 1..] == listings[b..];
    }
  }

  /** The articles gathered batch by batch: another batch is taken while fewer than
      `max_articles` are kept and batches remain. */
  function CollectFrom<X>(batches: seq<seq<X>>, maxArticles: int, acc: seq<X>): seq<X>
    decreases |batches|
  {
    if |acc| >= maxArticles || batches == [] then acc
    else CollectFrom(batches[1..], maxArticles, acc + batches[0])
  }

  /** Python's `xs[:n]`. */
  function Take<X>(xs: seq<X>, n: int): (r: seq<X>)
    ensures |r| <= |xs| && r == xs[..|r|]
    ensures 0 <= n ==> |r| == if n < |xs| then n else |xs|
  {
    if n >= |xs| then xs
    else if n >= 0 then xs[..n]
    else if |xs| + n <= 0 then []
    else xs[..|xs| + n]
  }

  /** The accepting pass over one listing's fetch results. */
  method AcceptListing(category: string, pages: seq<Option<Page>>) returns (kept: seq<Article>)
    ensures kept == AcceptedAll(category, pages)
  {
    kept := [];
    for j := 0 to |pages|
      invariant kept == AcceptedAll(category, pages[..j])
    {
      assert pages[..j + 1][..j] == pages[..j];
      var page := pages[j];
      if page.Some? {
        var cleanedContent := CleanWikipediaContent(page.value.extract);
        if cleanedContent != [] && page.value.fullUrl != [] && |Words(cleanedContent)| >= MinWords {
          kept := kept + [Article(page.value.title, category, cleanedContent, page.value.fullUrl)];
        }
      }
    }
    assert pages[..|pages|] == pages;
  }

  /** `fetch_category_articles` on the category's member listings: `listings[b]` holds
      the fetch results of the pages of the b-th `get_category_members` response, in
      the order the thread pool completes them; the last listing is the one that
      comes without a continuation token. */
  method FetchCategoryArticles(category: string, maxArticles: int, listings: seq<seq<Option<Page>>>)
    returns (articles: seq<Article>)
    ensures articles == Take(CollectFrom(KeptPerListing(category, listings), maxArticles, []), maxArticles)
    ensures |articles| <= if maxArticles < 0 then 0 else maxArticles
  {
    ghost var kept := KeptPerListing(category, listings);
    var articlesInfo: seq<Article> := [];
    var b := 0;
    while |articlesInfo| < maxArticles && b < |listings|
      invariant 0 <= b <= |listings|
      invariant CollectFrom(kept[b..], maxArticles, articlesInfo) == CollectFrom(kept, maxArticles, [])
      decreases |listings| - b
    {
      var batch := AcceptListing(category, listings[b]);
      KeptPerListingAt(category, listings, b);
      assert kept[b..][1..] == kept[b + 1..];
      articlesInfo := articlesInfo + batch;
      b := b + 1;
    }
    assert b == |listings| ==> kept[b..] == [];
    articles := Take(articlesInfo, maxArticles);
  }

  /** The articles gathered are a prefix of the concatenated batches. */
  lemma {:induction false} CollectIsPrefix<X>(batches: seq<seq<X>>, maxArticles: int, acc: seq<X>)
    ensures var r := CollectFrom(batches, maxArticles, acc);
      var all := acc + Flatten(batches);
      |r| <= |all| && r == all[..|r|]
    decreases |batches|
  {
    if !(|acc| >= maxArticles || batches == []) {
      CollectIsPrefix(batches[1..], maxArticles, acc + batches[0]);
      AppendAssoc(acc, batches[0], Flatten(batches[1..]));
    }
  }

  /** Stopping short of `max_articles` means every batch was used. */
  lemma {:induction false} CollectShortIsComplete<X>(batches: seq<seq<X>>, maxArticles: int, acc: seq<X>)
    requires |CollectFrom(batches, maxArticles, acc)| < maxArticles
    ensures CollectFrom(batches, maxArticles, acc) == acc + Flatten(batches)
    decreases |batches|
  {
    if batches != [] {
      CollectShortIsComplete(batches[1..], maxArticles, acc + batches[0]);
      AppendAssoc(acc, batches[0], Flatten(batches[1..]));
    }
  }

  /** Gathering then cutting at `max_articles` gives the first `max_articles` of all
      the batches' elements, or all of them when there are fewer. */
  lemma CollectThenTake<X>(batches: seq<seq<X>>, maxArticles: int)
    ensures var r := Take(CollectFrom(batches, maxArticles, []), maxArticles);
      var all := Flatten(batches);
      |r| <= |all| && r == all[..|r|] && (|all| < maxArticles ==> r == all)
      && (0 <= maxArticles ==> r == Take(all, maxArticles))
  {
    var all := Flatten(batches);
    var collected := CollectFrom(batches, maxArticles, []);
    CollectIsPrefix(batches, maxArticles, []);
    assert [] + all == all;
    if |collected| < maxArticles {
      CollectShortIsComplete(batches, maxArticles, []);
    } else if 0 <= maxArticles {
      assert Take(collected, maxArticles) == collected[..maxArticles] == all[..maxArticles];
    }
  }

  /** The result of `fetch_category_articles`: acceptable articles only, namely the
      first `max_articles` of all acceptable ones in order, or all of them when
      there are fewer. */
  lemma FetchSpec(category: string, maxArticles: int, listings: seq<seq<Option<Page>>>)
    ensures var r := Take(CollectFrom(KeptPerListing(category, listings), maxArticles, []), maxArticles);
      var all := AcceptedAll(category, Flatten(listings));
      (forall a :: a in r ==> Acceptable(category, a))
      && |r| <= |all| && r == all[..|r|]
      && (|all| < maxArticles ==> r == all)
      && (0 <= maxArticles ==> r == Take(all, maxArticles))
  {
    var kept := KeptPerListing(category, listings);
    var all := AcceptedAll(category, Flatten(listings));
    KeptPerListingFlatten(category, listings);
    AcceptedAllSpec(category, Flatten(listings));
    CollectThenTake(kept, maxArticles);
    var r := Take(CollectFrom(kept, maxArticles, []), maxArticles);
    forall a | a in r ensures Acceptable(category, a) {
      var i :| 0 <= i < |r| && r[i] == a;
      assert a == all[i];
    }
  }

  // ---------------------------------------------------------------------------
  // discard_unseened_categories

  /** One row of a split; `category` is the "Category" column. */
  datatype SplitRow = SplitRow(category: string, title: string, text: string, url: string)

  function Categories(rows: seq<SplitRow>): set<string> {
    set r | r in rows :: r.category
  }

  /** The rows whose category is in `keep`, in order (`df[df["Category"].isin(keep)]`). */
  function KeepCategories(rows: seq<SplitRow>, keep: set<string>): seq<SplitRow> {
    if rows == [] then []
    else
      KeepCategories(rows[..|rows| - 1], keep)
      + (if rows[|rows| - 1].category in keep then [rows[|rows| - 1]] else [])
  }

  /** `discard_unseened_categories`. */
  function DiscardUnseenCategories(train: seq<SplitRow>, eval: seq<SplitRow>, test: seq<SplitRow>)
    : (seq<SplitRow>, seq<SplitRow>, seq<SplitRow>)
  {
    var common := Categories(train) * Categories(eval) * Categories(test);
    (KeepCategories(train, common), KeepCategories(eval, common), KeepCategories(test, common))
  }

  /** The filter keeps exactly the rows whose category is in `keep`, each as many
      times as it occurs, in their order. */
  lemma {:induction false} KeepCategoriesSpec(rows: seq<SplitRow>, keep: set<string>)
    ensures forall r :: r in KeepCategories(rows, keep) <==> r in rows && r.category in keep
    ensures forall r :: multiset(KeepCategories(rows, keep))[r] == if r.category in keep then multiset(rows)[r] else 0
    ensures IsSubsequence(KeepCategories(rows, keep), rows)
  {
    KeepCategoriesCounts(rows, keep);
    if rows != [] {
      var init := rows[..|rows| - 1];
      var last := rows[|rows| - 1];
      KeepCategoriesSpec(init, keep);
      assert rows == init + [last];
      assert KeepCategories(rows, keep)
        == if last.category in keep then KeepCategories(init, keep) + [last] else KeepCategories(init, keep);
      SubsequenceSnoc(KeepCategories(init, keep), init, last, last.category in keep);
    }
  }

  lemma {:induction false} KeepCategoriesCounts(rows: seq<SplitRow>, keep: set<string>)
    ensures forall r :: multiset(KeepCategories(rows, keep))[r] == if r.category in keep then multiset(rows)[r] else 0
  {
    if rows != [] {
      var init := rows[..|rows| - 1];
      var last := rows[|rows| - 1];
      var kept := KeepCategories(init, keep);
      KeepCategoriesCounts(init, keep);
      assert rows == init + [last];
      assert multiset(rows) == multiset(init) + multiset{last};
      if last.category in keep {
        assert KeepCategories(rows, keep) == kept + [last];
        assert multiset(kept + [last]) == multiset(kept) + multiset{last};
      } else {
        assert KeepCategories(rows, keep) == kept;
      }
    }
  }

  lemma {:induction false} SubsequenceSnoc<X>(a: seq<X>, b: seq<X>, x: X, take: bool)
    requires IsSubsequence(a, b)
    ensures IsSubsequence(if take then a + [x] else a, b + [x])
    decreases |b|
  {
    if b == [] {
      if take {
        assert a == [];
        assert IsSubsequence([x][1..], [x][1..]);
      }
    } else if a == [] {
      if take {
        SubsequenceSnoc(a, b[1..], x, take);
        assert (b + [x])[1..] == b[1..] + [x];
      }
    } else {
      var a' := if take then a + [x] else a;
      assert (b + [x])[1..] == b[1..] + [x];
      assert a'[0] == a[0];
      if a[0] == b[0] {
        SubsequenceSnoc(a[1..], b[1..], x, take);
        assert a'[1..] == if take then a[1..] + [x] else a[1..];
      } else {
        SubsequenceSnoc(a, b[1..], x, take);
      }
    }
  }

  /** Afterwards the three splits have the same categories: those that were in all
      three before. */
  lemma DiscardLeavesCommonCategories(train: seq<SplitRow>, eval: seq<SplitRow>, test: seq<SplitRow>)
    ensures var common := Categories(train) * Categories(eval) * Categories(test);
      var (t, e, s) := DiscardUnseenCategories(train, eval, test);
      Categories(t) == common && Categories(e) == common && Categories(s) == common
  {
    var common := Categories(train) * Categories(eval) * Categories(test);
    KeepCategoriesSpec(train, common);
    KeepCategoriesSpec(eval, common);
    KeepCategoriesSpec(test, common);
    KeptCategories(train, common);
    KeptCategories(eval, common);
    KeptCategories(test, common);
  }

  lemma KeptCategories(rows: seq<SplitRow>, common: set<string>)
    requires common <= Categories(rows)
    requires forall r :: r in KeepCategories(rows, common) <==> r in rows && r.category in common
    ensures Categories(KeepCategories(rows, common)) == common
  {
    forall c | c in common ensures c in Categories(KeepCategories(rows, common)) {
      var r :| r in rows && r.category == c;
      assert r in KeepCategories(rows, common);
    }
  }
}
