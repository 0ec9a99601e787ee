/** The metadata heuristics of `extract_paper_metadata` in
    `utils/text_chunker.py`: defaults, a first-match title filter over the
    first 50 lines, an author search and a first-match year scan. */
module PaperMetadata {
  import opened Wrappers
  import opened PyStr
  import opened PyList

  /** The metadata mapping the function returns; every key is always present. */
  datatype Metadata = Metadata(title: string, authors: string, year: string, processedDate: string)

  const DefaultTitle: string := "Unknown Title"
  const DefaultAuthors: string := "Unknown Authors"
  const DefaultYear: string := "Unknown Year"

  /** Only the first this many lines are considered for the title. */
  const TitleLines: nat := 50
  /** The author patterns are searched in this many leading characters. */
  const AuthorWindow: nat := 2000
  /** The year is searched in this many leading characters. */
  const YearWindow: nat := 3000

  /** Lower-case substrings that disqualify a title line. */
  const StopWords: seq<string> :=
    ["abstract", "introduction", "figure", "table", "section", "journal", "vol", "pp", "copyright", "http"]

  predicate HasStopWord(line: string) {
    exists k | 0 <= k < |StopWords| :: Contains(Lower(line), StopWords[k])
  }

  /** The title conditions on a stripped line: 10 to 200 characters, an
      upper-case first character, not all upper-case, no stop word, no
      trailing `.`, `,` or `;`, and no digit. */
  predicate IsTitleLine(line: string) {
    && 10 <= |line| <= 200
    && IsUpper(line[0])
    && !AllUpper(line)
    && !HasStopWord(line)
    && !(EndsWith(line, ".") || EndsWith(line, ",") || EndsWith(line, ";"))
    && !(exists i | 0 <= i < |line| :: IsDigit(line[i]))
  }

  /** A line that is a title once stripped. */
  predicate IsTitleCandidate(line: string) {
    IsTitleLine(Strip(line))
  }

  /** The lines examined for a title: the first 50 of `text.split('\n')`. */
  function TitleCandidates(text: string): seq<string> {
    Take(Split(text, "\n"), TitleLines)
  }

  /** The title: the first qualifying stripped candidate line, else the default. */
  function ExtractTitle(text: string): (title: string)
    ensures var lines := TitleCandidates(text);
      || (title == DefaultTitle && forall j | 0 <= j < |lines| :: !IsTitleLine(Strip(lines[j])))
      || (exists i | 0 <= i < |lines| ::
            && title == Strip(lines[i])
            && IsTitleLine(title)
            && forall j | 0 <= j < i :: !IsTitleLine(Strip(lines[j])))
  {
    var lines := TitleCandidates(text);
    match FindFirst(lines, IsTitleCandidate, 0)
    case None => DefaultTitle
    case Some(i) => Strip(lines[i])
  }

  /** A match of `\b(19|20)\d{2}\b` at position `p`. */
  predicate IsYearAt(s: string, p: nat) {
    && p + 4 <= |s|
    && (s[p..p + 2] == "19" || s[p..p + 2] == "20")
    && IsDigit(s[p + 2]) && IsDigit(s[p + 3])
    && (p == 0 || !IsWordChar(s[p - 1]))
    && (p + 4 == |s| || !IsWordChar(s[p + 4]))
  }

  /** The leftmost year match at or after `from`, as `re.search` finds it. */
  function FindYearFrom(s: string, from: nat): (r: Option<nat>)
    requires from <= |s|
    ensures r.Some? ==> from <= r.value && IsYearAt(s, r.value)
    ensures forall p | from <= p <= |s| && (r.None? || p < r.value) :: !IsYearAt(s, p)
    decreases |s| - from
  {
    if IsYearAt(s, from) then Some(from)
    else if from == |s| then None
    else FindYearFrom(s, from + 1)
  }

  /** A year match, cut out of its text, is a year match on its own. */
  lemma {:induction false} YearAtSlice(s: string, p: nat)
    requires IsYearAt(s, p)
    ensures IsYearAt(s[p..p + 4], 0)
  {
    var y := s[p..p + 4];
    assert y[0..2] == s[p..p + 2];
    assert y[2] == s[p + 2] && y[3] == s[p + 3];
  }

  /** The year: the leftmost match within the first 3000 characters, else the default. */
  function ExtractYear(text: string): (year: string)
    ensures year == DefaultYear || (|year| == 4 && IsYearAt(year, 0))
    ensures var s := Take(text, YearWindow);
      || (year == DefaultYear && forall p | 0 <= p <= |s| :: !IsYearAt(s, p))
      || (exists p | 0 <= p <= |s| - 4 ::
            && IsYearAt(s, p)
            && year == s[p..p + 4]
            && forall q | 0 <= q < p :: !IsYearAt(s, q))
  {
    var s := Take(text, YearWindow);
    match FindYearFrom(s, 0)
    case None => DefaultYear
    case Some(p) =>
      YearAtSlice(s, p);
      s[p..p + 4]
  }

  /** `extract_paper_metadata(text)`. The author regular expressions are the
      oracle `authorSearch`, applied to the first 2000 characters; `now` is the
      timestamp `datetime.now().isoformat()` would give. The function has no
      error path: every field is either found or left at its default. */
  function ExtractPaperMetadata(text: string, now: string, authorSearch: string -> Option<string>): (m: Metadata)
    ensures m.title == DefaultTitle || IsTitleLine(m.title)
    ensures m.year == DefaultYear || (|m.year| == 4 && IsYearAt(m.year, 0))
    ensures authorSearch(Take(text, AuthorWindow)).None? ==> m.authors == DefaultAuthors
    ensures authorSearch(Take(text, AuthorWindow)).Some? ==> m.authors == authorSearch(Take(text, AuthorWindow)).value
    ensures m.processedDate == now
  {
    Metadata(ExtractTitle(text), authorSearch(Take(text, AuthorWindow)).GetOr(DefaultAuthors), ExtractYear(text), now)
  }

  /** Text in which no search finds anything gets every default: no
      qualifying line among the first 50, no year in the first 3000
      characters, and an author search that finds nothing. */
  lemma {:induction false} NothingFoundDefaults(text: string, now: string, authorSearch: string -> Option<string>)
    requires forall j | 0 <= j < |TitleCandidates(text)| :: !IsTitleCandidate(TitleCandidates(text)[j])
    requires forall p | 0 <= p <= |Take(text, YearWindow)| :: !IsYearAt(Take(text, YearWindow), p)
    requires authorSearch(Take(text, AuthorWindow)).None?
    ensures ExtractPaperMetadata(text, now, authorSearch) == Metadata(DefaultTitle, DefaultAuthors, DefaultYear, now)
  {
  }

  /** Empty text, with an author search that finds nothing, gets every default. */
  lemma {:induction false} EmptyTextDefaults(now: string)
    ensures ExtractPaperMetadata("", now, _ => None) == Metadata(DefaultTitle, DefaultAuthors, DefaultYear, now)
  {
    assert Split("", "\n") == [""];
    assert !IsTitleCandidate("");
    NothingFoundDefaults("", now, _ => None);
  }
}
