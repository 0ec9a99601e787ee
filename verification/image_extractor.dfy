/** The pure part of `extract_images_and_captions` in
    `extractors/image_extractor.py`: pairing images with captions, the
    three-tier figure selection, the manual index parser and the `figures_text`
    listing. PDF decoding, the caption regular expression and OCR stay outside:
    every page is given as the captions found on it and the OCR text of each
    of its images. */
module ImageExtractor {
  import opened PyStr
  import opened PyList
  import opened Wrappers

  /** What the extraction sees of one page: the caption matches in page order,
      and the raw OCR text of each image in `get_images` order. */
  datatype PageScan = PageScan(captions: seq<string>, ocrTexts: seq<string>)

  /** The decoded image of the `index`-th (1-based) image on page `page` (1-based). */
  datatype ImageRef = ImageRef(page: nat, index: nat)

  /** One entry of `figures_info`. */
  datatype Figure = Figure(page: nat, caption: string, ocr: string, image: ImageRef)

  /** What the extraction returns: the listing of all figures and the images of the selected ones. */
  datatype Extraction = Extraction(figuresText: string, images: seq<ImageRef>)

  const NoCaption: string := "No caption found"

  /** The caption of the `index`-th (1-based) image on a page. */
  function CaptionFor(captions: seq<string>, index: nat): (c: string)
    requires index >= 1
    ensures index <= |captions| ==> c == captions[index - 1]
    ensures index > |captions| ==> c == NoCaption
  {
    if index - 1 < |captions| then captions[index - 1] else NoCaption
  }

  /** The figures of page `pageNum` (0-based), one per image, in image order. */
  function PageFigures(pageNum: nat, scan: PageScan): (figs: seq<Figure>)
    ensures |figs| == |scan.ocrTexts|
  {
    seq(|scan.ocrTexts|, i requires 0 <= i < |scan.ocrTexts| =>
      Figure(pageNum + 1, Strip(CaptionFor(scan.captions, i + 1)), Strip(scan.ocrTexts[i]), ImageRef(pageNum + 1, i + 1)))
  }

  /** The number of images on the given pages. */
  function ImageCount(pages: seq<PageScan>): nat
    decreases |pages|
  {
    if |pages| == 0 then 0 else ImageCount(pages[..|pages| - 1]) + |pages[|pages| - 1].ocrTexts|
  }

  /** `f` describes image `f.image` of `pages` as the extraction records it: the
      page and image exist, the caption is the image's positional caption or
      the placeholder, and both caption and OCR text are stripped. */
  predicate Describes(pages: seq<PageScan>, f: Figure) {
    && 1 <= f.page <= |pages|
    && f.image.page == f.page
    && 1 <= f.image.index <= |pages[f.page - 1].ocrTexts|
    && f.caption == Strip(CaptionFor(pages[f.page - 1].captions, f.image.index))
    && f.ocr == Strip(pages[f.page - 1].ocrTexts[f.image.index - 1])
  }

  /** `figures_info`: the figures of every page, page by page. */
  function CollectFigures(pages: seq<PageScan>): (figs: seq<Figure>)
    ensures |figs| == ImageCount(pages)
    decreases |pages|
  {
    if |pages| == 0 then []
    else
      var n := |pages| - 1;
      CollectFigures(pages[..n]) + PageFigures(n, pages[n])
  }

  /** Every figure describes its image: positional caption or placeholder,
      stripped caption and OCR text. */
  lemma {:induction false} CollectFiguresDescribe(pages: seq<PageScan>)
    ensures forall i | 0 <= i < |CollectFigures(pages)| :: Describes(pages, CollectFigures(pages)[i])
    decreases |pages|
  {
    if |pages| > 0 {
      var n := |pages| - 1;
      var front := pages[..n];
      var before := CollectFigures(front);
      var here := PageFigures(n, pages[n]);
      assert CollectFigures(pages) == before + here;
      CollectFiguresDescribe(front);
      forall i | 0 <= i < |before| + |here| ensures Describes(pages, (before + here)[i]) {
        if i < |before| {
          var f := before[i];
          assert Describes(front, f);
          assert front[f.page - 1] == pages[f.page - 1];
        } else {
          assert (before + here)[i] == here[i - |before|];
        }
      }
    }
  }

  /** Image `j` of page `p` (both 0-based) is figure number `ImageCount(pages[..p]) + j`. */
  lemma {:induction false} CollectFiguresAt(pages: seq<PageScan>, p: nat, j: nat)
    requires p < |pages| && j < |pages[p].ocrTexts|
    ensures ImageCount(pages[..p]) + j < |CollectFigures(pages)|
    ensures CollectFigures(pages)[ImageCount(pages[..p]) + j].image == ImageRef(p + 1, j + 1)
    decreases |pages|
  {
    var n := |pages| - 1;
    var front := pages[..n];
    var before := CollectFigures(front);
    var here := PageFigures(n, pages[n]);
    assert CollectFigures(pages) == before + here;
    if p < n {
      assert front[..p] == pages[..p];
      assert front[p] == pages[p];
      CollectFiguresAt(front, p, j);
    } else {
      assert pages[..p] == front;
      assert here[j].image == ImageRef(p + 1, j + 1);
    }
  }

  // ---------------------------------------------------------------- selection

  /** The lower-cased caption starts with "figure" or "table". */
  predicate IsPriority(f: Figure) {
    StartsWith(Lower(f.caption), "figure") || StartsWith(Lower(f.caption), "table")
  }

  /** Caption words that mark a result figure. */
  const Keywords: seq<string> :=
    ["accuracy", "result", "performance", "evaluation", "bias", "comparison", "ablation", "error", "score"]

  /** The lower-cased caption contains one of the keywords. */
  predicate HasKeyword(f: Figure) {
    exists k | 0 <= k < |Keywords| :: Contains(Lower(f.caption), Keywords[k])
  }

  /** The automatic selection: the priority figures if there are any, else the
      keyword figures if there are any, else all figures; then the first
      `maxSelected` of them (Python slicing, so a negative bound drops from the end). */
  function SelectFigures(figs: seq<Figure>, maxSelected: int): (r: seq<Figure>)
    ensures IsSubsequence(r, figs)
    ensures 0 <= maxSelected ==> |r| <= maxSelected
  {
    var priority := Filter(figs, IsPriority);
    var selected := if |priority| > 0 then priority else Filter(figs, HasKeyword);
    if |selected| == 0 then
      SubsequenceRefl(figs);
      PrefixOfSubsequence(Take(figs, maxSelected), figs, figs);
      Take(figs, maxSelected)
    else
      PrefixOfSubsequence(Take(selected, maxSelected), selected, figs);
      Take(selected, maxSelected)
  }

  /** First tier: when some caption starts with "figure" or "table", the
      selection is the first `maxSelected` of exactly those figures. */
  lemma {:induction false} SelectPriorityTier(figs: seq<Figure>, maxSelected: int, i: nat)
    requires i < |figs| && IsPriority(figs[i])
    ensures var r := SelectFigures(figs, maxSelected);
      && r == Take(Filter(figs, IsPriority), maxSelected)
      && forall k | 0 <= k < |r| :: IsPriority(r[k])
  {
    assert figs[i] in Filter(figs, IsPriority);
  }

  /** Second tier: with no priority caption, the selection is the first
      `maxSelected` keyword figures, when there are any. */
  lemma {:induction false} SelectKeywordTier(figs: seq<Figure>, maxSelected: int, i: nat)
    requires forall j | 0 <= j < |figs| :: !IsPriority(figs[j])
    requires i < |figs| && HasKeyword(figs[i])
    ensures var r := SelectFigures(figs, maxSelected);
      && r == Take(Filter(figs, HasKeyword), maxSelected)
      && forall k | 0 <= k < |r| :: HasKeyword(r[k])
  {
    FilterNone(figs, IsPriority);
    assert figs[i] in Filter(figs, HasKeyword);
  }

  /** Last tier: with neither kind of caption, the selection is the first
      `maxSelected` figures. */
  lemma {:induction false} SelectFallbackTier(figs: seq<Figure>, maxSelected: int)
    requires forall j | 0 <= j < |figs| :: !IsPriority(figs[j]) && !HasKeyword(figs[j])
    ensures SelectFigures(figs, maxSelected) == Take(figs, maxSelected)
  {
    FilterNone(figs, IsPriority);
    FilterNone(figs, HasKeyword);
  }

  /** When the priority figures fit within the bound, every one of them is selected. */
  lemma {:induction false} SelectAllPriority(figs: seq<Figure>, maxSelected: int, i: nat)
    requires i < |figs| && IsPriority(figs[i])
    requires |Filter(figs, IsPriority)| <= maxSelected
    ensures figs[i] in SelectFigures(figs, maxSelected)
  {
    SelectPriorityTier(figs, maxSelected, i);
  }

  // -------------------------------------------------------- manual selection

  /** A comma-separated token that names a figure: all digits once stripped. */
  predicate IsIndexToken(t: string) {
    AllDigits(Strip(t))
  }

  /** `chosen_ids`: each index token read as a number, minus one, in input order. */
  function ChosenIds(chosen: string): (ids: seq<int>)
    ensures |ids| == |Filter(Split(chosen, ","), IsIndexToken)|
    ensures forall k | 0 <= k < |ids| :: ids[k] >= -1
  {
    TokenIds(Filter(Split(chosen, ","), IsIndexToken))
  }

  /** Index tokens read as numbers, minus one. */
  function TokenIds(tokens: seq<string>): (ids: seq<int>)
    requires forall k | 0 <= k < |tokens| :: IsIndexToken(tokens[k])
    ensures |ids| == |tokens|
    ensures forall k | 0 <= k < |ids| :: ids[k] >= -1
  {
    seq(|tokens|, k requires 0 <= k < |tokens| && IsIndexToken(tokens[k]) => DigitsValue(Strip(tokens[k])) - 1)
  }

  /** Index tokens of two runs of tokens are the first run's numbers, then the second's. */
  lemma {:induction false} TokenIdsAppend(a: seq<string>, b: seq<string>)
    requires forall k | 0 <= k < |a| :: IsIndexToken(a[k])
    requires forall k | 0 <= k < |b| :: IsIndexToken(b[k])
    ensures forall k | 0 <= k < |a + b| :: IsIndexToken((a + b)[k])
    ensures TokenIds(a + b) == TokenIds(a) + TokenIds(b)
  {
    assert forall k | 0 <= k < |a + b| :: IsIndexToken((a + b)[k]) by {
      forall k | 0 <= k < |a + b| ensures IsIndexToken((a + b)[k]) {
        if k >= |a| {
          assert (a + b)[k] == b[k - |a|];
        }
      }
    }
    var l := TokenIds(a + b);
    var r := TokenIds(a) + TokenIds(b);
    forall k | 0 <= k < |l| ensures l[k] == r[k] {
      if k >= |a| {
        assert (a + b)[k] == b[k - |a|];
      }
    }
  }

  /** A line with no comma holds one token: its number minus one if it is all
      digits once stripped, and nothing otherwise. */
  lemma {:induction false} ChosenIdsToken(t: string)
    requires ',' !in t
    ensures ChosenIds(t) == if IsIndexToken(t) then [DigitsValue(Strip(t)) - 1] else []
  {
    SplitCharNone(t, ',');
    assert "," == [','];
    assert [t][1..] == [];
  }

  /** The ids of comma-separated tokens are those of the first token followed
      by those of the rest: together with `ChosenIdsToken`, the ids are read
      token by token, left to right. */
  lemma {:induction false} ChosenIdsCons(first: string, rest: string)
    requires ',' !in first
    ensures ChosenIds(first + "," + rest) == ChosenIds(first) + ChosenIds(rest)
  {
    assert "," == [','];
    SplitCharCons(first, ',', rest);
    SplitCharNone(first, ',');
    FilterAppend([first], Split(rest, ","), IsIndexToken);
    TokenIdsAppend(Filter([first], IsIndexToken), Filter(Split(rest, ","), IsIndexToken));
  }

  /** The chosen index names a figure. */
  function InRange(figs: seq<Figure>): int -> bool {
    i => 0 <= i < |figs|
  }

  /** `[figures_info[i] for i in ids if 0 <= i < len(figures_info)]`. */
  function PickFigures(figs: seq<Figure>, ids: seq<int>): (r: seq<Figure>)
    ensures |r| <= |ids|
    ensures forall k | 0 <= k < |r| :: r[k] in figs
    ensures forall k | 0 <= k < |r| :: exists j | 0 <= j < |ids| :: 0 <= ids[j] < |figs| && r[k] == figs[ids[j]]
    ensures |r| == |ids| <==> forall j | 0 <= j < |ids| :: 0 <= ids[j] < |figs|
  {
    var kept := Filter(ids, InRange(figs));
    KeptCountFull(ids, InRange(figs));
    seq(|kept|, k requires 0 <= k < |kept| => figs[kept[k]])
  }

  /** Picking by two runs of indices picks by the first run, then by the second. */
  lemma {:induction false} PickFiguresAppend(figs: seq<Figure>, a: seq<int>, b: seq<int>)
    ensures PickFigures(figs, a + b) == PickFigures(figs, a) + PickFigures(figs, b)
  {
    var ka := Filter(a, InRange(figs));
    var kb := Filter(b, InRange(figs));
    FilterAppend(a, b, InRange(figs));
    var l := PickFigures(figs, a + b);
    var r := PickFigures(figs, a) + PickFigures(figs, b);
    forall k | 0 <= k < |l| ensures l[k] == r[k] {
      if k >= |ka| {
        assert (ka + kb)[k] == kb[k - |ka|];
      }
    }
  }

  /** One index picks its figure when it is in range and nothing otherwise:
      with `PickFiguresAppend`, the picks are made index by index, in order,
      repeats included, and out-of-range indices are skipped. */
  lemma {:induction false} PickFiguresOne(figs: seq<Figure>, i: int)
    ensures PickFigures(figs, [i]) == if 0 <= i < |figs| then [figs[i]] else []
  {
    assert [i][1..] == [];
  }

  /** Dropping the out-of-range indices first changes nothing. */
  lemma {:induction false} PickFiguresDropsOutOfRange(figs: seq<Figure>, ids: seq<int>)
    ensures PickFigures(figs, ids) == PickFigures(figs, Filter(ids, InRange(figs)))
  {
    FilterIdempotent(ids, InRange(figs));
  }

  /** Indices that are all in range pick their figures one for one. */
  lemma {:induction false} PickFiguresInRange(figs: seq<Figure>, ids: seq<int>)
    requires forall k | 0 <= k < |ids| :: 0 <= ids[k] < |figs|
    ensures var r := PickFigures(figs, ids);
      |r| == |ids| && forall k | 0 <= k < |ids| :: r[k] == figs[ids[k]]
  {
    FilterAll(ids, InRange(figs));
  }

  /** The manual selection: the figures at the chosen in-range indices, in input
      order, duplicates included and without any cap. */
  function ManualSelect(figs: seq<Figure>, chosen: string): (r: seq<Figure>)
    ensures |r| <= |ChosenIds(chosen)|
    ensures forall k | 0 <= k < |r| :: r[k] in figs
  {
    PickFigures(figs, ChosenIds(chosen))
  }

  /** A line with no comma selects the figure it numbers, 1-based, when it is
      all digits once stripped and in range, and nothing otherwise. */
  lemma {:induction false} ManualSelectToken(figs: seq<Figure>, t: string)
    requires ',' !in t
    ensures ManualSelect(figs, t)
      == if IsIndexToken(t) && 1 <= DigitsValue(Strip(t)) <= |figs| then [figs[DigitsValue(Strip(t)) - 1]] else []
  {
    ChosenIdsToken(t);
    if IsIndexToken(t) {
      PickFiguresOne(figs, DigitsValue(Strip(t)) - 1);
    }
  }

  /** The selection of comma-separated tokens is the selection of the first
      token followed by that of the rest. */
  lemma {:induction false} ManualSelectCons(figs: seq<Figure>, first: string, rest: string)
    requires ',' !in first
    ensures ManualSelect(figs, first + "," + rest) == ManualSelect(figs, first) + ManualSelect(figs, rest)
  {
    ChosenIdsCons(first, rest);
    PickFiguresAppend(figs, ChosenIds(first), ChosenIds(rest));
  }

  /** The 1-based numbers of the picked figures. */
  function NumbersText(picks: seq<nat>): (parts: seq<string>)
    ensures |parts| == |picks|
    ensures forall k | 0 <= k < |picks| :: parts[k] == NatToString(picks[k] + 1)
  {
    seq(|picks|, k requires 0 <= k < |picks| => NatToString(picks[k] + 1))
  }

  /** The decimal numbers are index tokens, free of commas, and unchanged by stripping. */
  lemma {:induction false} NumberTokens(picks: seq<nat>)
    ensures var parts := NumbersText(picks);
      forall k | 0 <= k < |parts| :: ',' !in parts[k] && IsIndexToken(parts[k]) && Strip(parts[k]) == parts[k]
  {
    var parts := NumbersText(picks);
    forall k | 0 <= k < |parts| ensures ',' !in parts[k] && IsIndexToken(parts[k]) && Strip(parts[k]) == parts[k] {
      var d := parts[k];
      assert AllDigits(d);
      assert forall i | 0 <= i < |d| :: d[i] != ',' && d[i] !in Whitespace;
      StripSetStripped(d, Whitespace);
    }
  }

  /** The 1-based number of a pick reads back as the pick. */
  lemma {:induction false} NumberId(pick: nat)
    ensures IsIndexToken(NatToString(pick + 1))
    ensures DigitsValue(Strip(NatToString(pick + 1))) - 1 == pick
  {
    var d := NatToString(pick + 1);
    assert forall i | 0 <= i < |d| :: d[i] !in Whitespace;
    StripSetStripped(d, Whitespace);
    DigitsValueOfNatToString(pick + 1);
  }

  /** The index tokens of the comma-joined numbers are the numbers. */
  lemma {:induction false} NumbersTokens(picks: seq<nat>)
    requires |picks| >= 1
    ensures Filter(Split(Join(",", NumbersText(picks)), ","), IsIndexToken) == NumbersText(picks)
  {
    var parts := NumbersText(picks);
    NumberTokens(picks);
    SplitJoinChar(parts, ',');
    assert "," == [','];
    FilterAll(parts, IsIndexToken);
  }

  /** Reading back the comma-separated 1-based numbers gives the 0-based picks. */
  lemma {:induction false} ChosenIdsNumbers(picks: seq<nat>)
    requires |picks| >= 1
    ensures ChosenIds(Join(",", NumbersText(picks))) == picks
  {
    var parts := NumbersText(picks);
    NumbersTokens(picks);
    NumberTokens(picks);
    var ids := TokenIds(parts);
    assert ChosenIds(Join(",", parts)) == ids;
    forall k | 0 <= k < |ids| ensures ids[k] == picks[k] {
      NumberId(picks[k]);
    }
  }

  /** Typing the 1-based numbers of any figures, comma-separated, selects exactly
      those figures in that order, repetitions included. */
  lemma {:induction false} ManualSelectNumbers(figs: seq<Figure>, picks: seq<nat>)
    requires |picks| >= 1
    requires forall k | 0 <= k < |picks| :: picks[k] < |figs|
    ensures var r := ManualSelect(figs, Join(",", NumbersText(picks)));
      |r| == |picks| && forall k | 0 <= k < |picks| :: r[k] == figs[picks[k]]
  {
    ChosenIdsNumbers(picks);
    PickFiguresInRange(figs, picks);
  }

  // ------------------------------------------------------------ figures_text

  const BlockHead: string := "[Figure on page "

  /** The listing block of one figure. */
  function FigureBlock(f: Figure): string {
    BlockHead + NatToString(f.page) + "] " + f.caption + "\nOCR: " + f.ocr
  }

  /** The page number can be read back from a block: it is the digits between
      the block head and the first `]`. */
  lemma {:induction false} FigureBlockPage(f: Figure)
    ensures var b := FigureBlock(f);
      var n := |NatToString(f.page)|;
      && StartsWith(b, BlockHead)
      && Find(b[|BlockHead|..], "]") == Some(n)
      && AllDigits(b[|BlockHead|..|BlockHead| + n])
      && DigitsValue(b[|BlockHead|..|BlockHead| + n]) == f.page
  {
    var digits := NatToString(f.page);
    var tail := "] " + f.caption + "\nOCR: " + f.ocr;
    assert FigureBlock(f) == BlockHead + digits + tail;
    DigitsThenBracket(BlockHead, digits, tail);
    DigitsValueOfNatToString(f.page);
  }

  /** In `head + digits + tail` with `tail` opening on `]`, the first `]` after
      the head closes the digits. */
  lemma {:induction false} DigitsThenBracket(head: string, digits: string, tail: string)
    requires AllDigits(digits)
    requires |tail| > 0 && tail[0] == ']'
    ensures var b := head + digits + tail;
      && StartsWith(b, head)
      && Find(b[|head|..], "]") == Some(|digits|)
      && b[|head|..|head| + |digits|] == digits
  {
    var b := head + digits + tail;
    var rest := b[|head|..];
    assert rest == digits + tail;
    forall j | 0 <= j < |digits| ensures !IsAt(rest, "]", j) {
      assert rest[j] == digits[j];
    }
    assert IsAt(rest, "]", |digits|);
    FindLeftmost(rest, "]", |digits|);
    assert b[..|head|] == head;
  }

  /** The blocks of the figures, in order. */
  function Blocks(figs: seq<Figure>): (bs: seq<string>)
    ensures |bs| == |figs|
    ensures forall i | 0 <= i < |figs| :: bs[i] == FigureBlock(figs[i])
  {
    seq(|figs|, i requires 0 <= i < |figs| => FigureBlock(figs[i]))
  }

  /** `figures_text`: the blocks of the figures separated by blank lines. */
  function FiguresText(figs: seq<Figure>): string {
    Join("\n\n", Blocks(figs))
  }

  /** The listing is empty exactly when there are no figures. */
  lemma {:induction false} FiguresTextEmpty(figs: seq<Figure>)
    ensures FiguresText(figs) == "" <==> |figs| == 0
  {
    if |figs| > 0 {
      var bs := Blocks(figs);
      assert |bs[0]| > 0;
      if |figs| > 1 {
        assert FiguresText(figs) == bs[0] + "\n\n" + Join("\n\n", bs[1..]);
      }
    }
  }

  /** The listing of two runs of figures is their listings separated by a blank line. */
  lemma {:induction false} FiguresTextAppend(a: seq<Figure>, b: seq<Figure>)
    requires |a| >= 1 && |b| >= 1
    ensures FiguresText(a + b) == FiguresText(a) + "\n\n" + FiguresText(b)
  {
    assert Blocks(a + b) == Blocks(a) + Blocks(b);
    JoinAppend("\n\n", Blocks(a), Blocks(b));
  }

  // ------------------------------------------------------------- extraction

  /** The images of the given figures. */
  function ImagesOf(figs: seq<Figure>): (imgs: seq<ImageRef>)
    ensures |imgs| == |figs|
    ensures forall i | 0 <= i < |figs| :: imgs[i] == figs[i].image
  {
    seq(|figs|, i requires 0 <= i < |figs| => figs[i].image)
  }

  /** `extract_images_and_captions(pdf, max_selected, manual)`, with `chosen` the
      line typed at the prompt in manual mode and `failed` telling whether
      reading the pages, decoding an image, OCR or the prompt raised inside
      the `try`. A failure gives an empty listing and
      no images. Otherwise the listing covers every figure, selected or not,
      and the images are those of the manual selection in manual mode and of
      the automatic one otherwise. */
  function ExtractImagesAndCaptions(pages: seq<PageScan>, maxSelected: int, manual: bool, chosen: string, failed: bool)
    : (r: Extraction)
    ensures failed ==> r == Extraction("", [])
    ensures !failed ==> r.figuresText == FiguresText(CollectFigures(pages))
    ensures !failed && manual ==> r.images == ImagesOf(ManualSelect(CollectFigures(pages), chosen))
    ensures !failed && !manual ==> r.images == ImagesOf(SelectFigures(CollectFigures(pages), maxSelected))
    ensures !manual && 0 <= maxSelected ==> |r.images| <= maxSelected
    ensures forall k | 0 <= k < |r.images| ::
      exists i | 0 <= i < |CollectFigures(pages)| :: CollectFigures(pages)[i].image == r.images[k]
  {
    if failed then Extraction("", [])
    else
      var figs := CollectFigures(pages);
      var selected := if manual then ManualSelect(figs, chosen) else SelectFigures(figs, maxSelected);
      assert forall k | 0 <= k < |selected| :: selected[k] in figs by {
        if !manual {
          SubsequenceMembers(selected, figs);
        }
      }
      Extraction(FiguresText(figs), ImagesOf(selected))
  }
}
