/** The reference post-processing of `extract_citations_from_references` in
    `extractors/citation_extractor.py`: the cut at the first "references" or
    "bibliography", the split into pieces, normalising and filtering the
    pieces, and one link per reference. The split pattern is an oracle giving
    the positions where its zero-width lookahead matches, and the CrossRef
    lookup is an oracle giving an optional DOI. */
module CitationExtractor {
  import opened Wrappers
  import opened PyStr
  import opened PyList

  /** One enriched citation. */
  datatype Citation = Citation(reference: string, link: string)

  const ReferencesWord: string := "references"
  const BibliographyWord: string := "bibliography"
  const DoiPrefix: string := "https://doi.org/"
  const ScholarPrefix: string := "https://scholar.google.com/scholar?q="

  /** A references keyword starts at `p` of the lower-cased text; the result is its length. */
  function KeywordAt(lower: string, p: nat): (n: nat)
    ensures n == 0 <==> !IsAt(lower, ReferencesWord, p) && !IsAt(lower, BibliographyWord, p)
    ensures n > 0 ==>
      || (n == |ReferencesWord| && IsAt(lower, ReferencesWord, p))
      || (n == |BibliographyWord| && IsAt(lower, BibliographyWord, p))
  {
    if IsAt(lower, ReferencesWord, p) then |ReferencesWord|
    else if IsAt(lower, BibliographyWord, p) then |BibliographyWord|
    else 0
  }

  /** The leftmost keyword at or after `from`: its start. */
  function FindKeywordFrom(lower: string, from: nat): (r: Option<nat>)
    requires from <= |lower|
    ensures r.Some? ==> from <= r.value <= |lower| && KeywordAt(lower, r.value) > 0
    ensures forall q | from <= q <= |lower| && (r.None? || q < r.value) :: KeywordAt(lower, q) == 0
    decreases |lower| - from
  {
    if KeywordAt(lower, from) > 0 then Some(from)
    else if from == |lower| then None
    else FindKeywordFrom(lower, from + 1)
  }

  /** `match.group(2)` of the case-insensitive search for
      `(references|bibliography)(.*)`: everything after the first keyword. */
  function ReferencesText(text: string): (r: Option<string>)
    ensures r.None? <==> forall q | 0 <= q <= |text| :: KeywordAt(Lower(text), q) == 0
    ensures r.Some? ==> exists p | 0 <= p <= |text| ::
      && KeywordAt(Lower(text), p) > 0
      && (forall q | 0 <= q < p :: KeywordAt(Lower(text), q) == 0)
      && p + KeywordAt(Lower(text), p) <= |text|
      && r.value == text[p + KeywordAt(Lower(text), p)..]
  {
    var lower := Lower(text);
    match FindKeywordFrom(lower, 0)
    case None => None
    case Some(p) => Some(text[p + KeywordAt(lower, p)..])
  }

  // ------------------------------------------------------------------ split

  /** The first match position in `[i, n]`. */
  function NextMark(marks: set<nat>, i: nat, n: nat): (r: Option<nat>)
    ensures r.Some? ==> i <= r.value <= n && r.value in marks
    ensures forall q | i <= q <= n && (r.None? || q < r.value) :: q !in marks
    decreases n + 1 - i
  {
    if i > n then None
    else if i in marks then Some(i)
    else NextMark(marks, i + 1, n)
  }

  /** The pieces of `s[from..]` when `s` is cut at every match position after
      `from`: the first piece runs from `from` up to the next match, or to the
      end when there is none, and holds no match inside it. */
  function PiecesFrom(s: string, marks: set<nat>, from: nat): (pieces: seq<string>)
    requires from <= |s|
    ensures |pieces| >= 1
    ensures from + |pieces[0]| <= |s| && pieces[0] == s[from..from + |pieces[0]|]
    ensures forall q | from < q < from + |pieces[0]| :: q !in marks
    ensures |pieces| == 1 <==> forall q | from < q <= |s| :: q !in marks
    ensures |pieces| > 1 ==> from + |pieces[0]| in marks
    decreases |s| - from
  {
    match NextMark(marks, from + 1, |s|)
    case None => [s[from..]]
    case Some(q) => [s[from..q]] + PiecesFrom(s, marks, q)
  }

  /** `re.split` with a zero-width pattern matching at `marks`: the text is cut at
      every match position, a match at the start giving an empty first piece. */
  function SplitAtMarks(s: string, marks: set<nat>): (pieces: seq<string>)
    ensures |pieces| >= 1
    ensures 0 in marks ==> pieces[0] == ""
  {
    if 0 in marks then [""] + PiecesFrom(s, marks, 0) else PiecesFrom(s, marks, 0)
  }

  /** The pieces of `s[from..]` concatenate back to it. */
  lemma {:induction false} PiecesFromConcat(s: string, marks: set<nat>, from: nat)
    requires from <= |s|
    ensures Join("", PiecesFrom(s, marks, from)) == s[from..]
    decreases |s| - from
  {
    match NextMark(marks, from + 1, |s|)
    case None =>
    case Some(q) =>
      PiecesFromConcat(s, marks, q);
      JoinCons("", s[from..q], PiecesFrom(s, marks, q));
      assert s[from..] == s[from..q] + s[q..];
  }

  /** The split has no capture groups and cuts without consuming, so its
      pieces concatenate back to the text. */
  lemma {:induction false} SplitAtMarksConcat(s: string, marks: set<nat>)
    ensures Join("", SplitAtMarks(s, marks)) == s
  {
    PiecesFromConcat(s, marks, 0);
    assert s[0..] == s;
    if 0 in marks {
      JoinCons("", "", PiecesFrom(s, marks, 0));
    }
  }

  // -------------------------------------------------------- normalise, filter

  /** `ref.strip().replace("\n", " ")`. */
  function Normalise(piece: string): string {
    Replace(Strip(piece), "\n", " ")
  }

  /** A single-line text without surrounding whitespace. */
  predicate IsClean(r: string) {
    '\n' !in r && Strip(r) == r
  }

  /** A normalised piece is stripped and holds no line break. */
  lemma {:induction false} NormaliseClean(piece: string)
    ensures IsClean(Normalise(piece))
  {
    var t := Strip(piece);
    ReplaceChar(t, '\n', ' ');
    assert "\n" == ['\n'] && " " == [' '];
    var r := MapChar(t, '\n', ' ');
    assert Normalise(piece) == r;
    assert forall i | 0 <= i < |r| :: r[i] != '\n';
    if |r| > 0 {
      assert '\n' in Whitespace;
      assert r[0] == t[0] && r[|r| - 1] == t[|t| - 1];
    }
    StripSetStripped(r, Whitespace);
  }

  /** Four consecutive digits occur: `re.search(r"\d{4}", ref)`. */
  predicate HasFourDigits(r: string) {
    exists i | 0 <= i && i + 4 <= |r| :: IsDigit(r[i]) && IsDigit(r[i + 1]) && IsDigit(r[i + 2]) && IsDigit(r[i + 3])
  }

  /** A normalised piece kept as a reference: longer than 50 characters, with a year-like number. */
  predicate IsReference(r: string) {
    |r| > 50 && HasFourDigits(r)
  }

  /** The normalised pieces, in order. */
  function NormaliseAll(pieces: seq<string>): (rs: seq<string>)
    ensures |rs| == |pieces|
    ensures forall k | 0 <= k < |pieces| :: rs[k] == Normalise(pieces[k])
  {
    seq(|pieces|, k requires 0 <= k < |pieces| => Normalise(pieces[k]))
  }

  /** `references`: the normalised pieces that look like references, in order. */
  function CleanReferences(pieces: seq<string>): (refs: seq<string>)
    ensures IsSubsequence(refs, NormaliseAll(pieces))
    ensures forall k | 0 <= k < |refs| :: IsReference(refs[k]) && IsClean(refs[k])
    ensures forall k | 0 <= k < |pieces| :: IsReference(Normalise(pieces[k])) ==> Normalise(pieces[k]) in refs
    ensures FilterOf(refs, NormaliseAll(pieces), IsReference)
  {
    var all := NormaliseAll(pieces);
    NormaliseAllClean(pieces);
    var refs := Filter(all, IsReference);
    assert FilterOf(refs, all, IsReference);
    refs
  }

  /** Every normalised piece is clean. */
  lemma NormaliseAllClean(pieces: seq<string>)
    ensures forall k | 0 <= k < |pieces| :: IsClean(NormaliseAll(pieces)[k])
  {
    forall k | 0 <= k < |pieces| ensures IsClean(NormaliseAll(pieces)[k]) {
      NormaliseClean(pieces[k]);
    }
  }

  // -------------------------------------------------------------------- links

  /** The link of one reference: the DOI link when the lookup gives a non-empty
      DOI, otherwise a Scholar search with every space turned into `+`. */
  function Link(reference: string, doi: Option<string>): (link: string)
    ensures doi.Some? && |doi.value| > 0 ==> link == DoiPrefix + doi.value
    ensures !(doi.Some? && |doi.value| > 0) ==> StartsWith(link, ScholarPrefix)
  {
    if doi.Some? && |doi.value| > 0 then DoiPrefix + doi.value
    else ScholarPrefix + Replace(reference, " ", "+")
  }

  /** Without a usable DOI (none, or an empty one) the Scholar query is the
      reference with its spaces turned into `+`, and for a reference without
      `+` turning them back gives the reference. */
  lemma {:induction false} ScholarQuery(reference: string, doi: Option<string>)
    requires !(doi.Some? && |doi.value| > 0)
    ensures var q := Link(reference, doi)[|ScholarPrefix|..];
      && StartsWith(Link(reference, doi), ScholarPrefix)
      && q == MapChar(reference, ' ', '+')
      && ' ' !in q
      && ('+' !in reference ==> MapChar(q, '+', ' ') == reference)
  {
    ReplaceChar(reference, ' ', '+');
    assert " " == [' '] && "+" == ['+'];
    var q := Link(reference, doi)[|ScholarPrefix|..];
    assert q == MapChar(reference, ' ', '+');
    assert forall i | 0 <= i < |q| :: q[i] != ' ';
  }

  /** `enriched`: one citation per reference, in order, with the reference text unchanged. */
  function Enrich(refs: seq<string>, lookupDoi: string -> Option<string>): (cs: seq<Citation>)
    ensures |cs| == |refs|
    ensures forall k | 0 <= k < |refs| :: cs[k].reference == refs[k] && cs[k].link == Link(refs[k], lookupDoi(refs[k]))
  {
    seq(|refs|, k requires 0 <= k < |refs| => Citation(refs[k], Link(refs[k], lookupDoi(refs[k]))))
  }

  /** `extract_citations_from_references` on the extracted `text`. `splitMarks`
      gives the positions of a text where the split pattern matches and
      `lookupDoi` stands for `lookup_doi`. Empty text or no keyword gives no citations. */
  function ExtractCitations(text: string, splitMarks: string -> set<nat>, lookupDoi: string -> Option<string>)
    : (cs: seq<Citation>)
    ensures |text| == 0 ==> cs == []
    ensures ReferencesText(text).None? ==> cs == []
    ensures |text| > 0 && ReferencesText(text).Some? ==>
      var refsText := ReferencesText(text).value;
      var refs := CleanReferences(SplitAtMarks(refsText, splitMarks(refsText)));
      && |cs| == |refs|
      && forall k | 0 <= k < |refs| :: cs[k].reference == refs[k] && cs[k].link == Link(refs[k], lookupDoi(refs[k]))
  {
    if |text| == 0 then []
    else
      match ReferencesText(text)
      case None => []
      case Some(refsText) =>
        Enrich(CleanReferences(SplitAtMarks(refsText, splitMarks(refsText))), lookupDoi)
  }

  /** Every citation's reference is stripped, single-line, longer than 50
      characters and holds four consecutive digits. */
  lemma {:induction false} CitationsClean(text: string, splitMarks: string -> set<nat>, lookupDoi: string -> Option<string>)
    ensures var cs := ExtractCitations(text, splitMarks, lookupDoi);
      forall k | 0 <= k < |cs| :: IsReference(cs[k].reference) && IsClean(cs[k].reference)
  {
    if |text| > 0 && ReferencesText(text).Some? {
      var refsText := ReferencesText(text).value;
      var refs := CleanReferences(SplitAtMarks(refsText, splitMarks(refsText)));
      var cs := ExtractCitations(text, splitMarks, lookupDoi);
      assert cs == Enrich(refs, lookupDoi);
    }
  }
}
