# Research-paper agent core, modelled in Dafny

This project models the text-processing core of a research-paper assistant
that reads a PDF, chunks and stores it in a vector collection, picks figures,
collects citations and lays out a summary PDF. Each part is a Dafny module of
pure functions, and lemmas relate each operation to an independent
description of what it should produce.

- `TextChunker` (`utils/text_chunker.py`, `chunk_text`): overlapping word windows.
  The step `chunk_size - overlap` drives a Python `range`. A zero step is the
  error `range` raises, and a negative step gives no chunks. Lemmas show that
  consecutive chunks share `overlap` words, that the last chunk ends at the
  last word, and that stitching each chunk's first `step` words back together
  gives the word list.
- `PaperMetadata` (`utils/text_chunker.py`, `extract_paper_metadata`): the
  defaults, the first qualifying title line among the first 50, the author
  search (an oracle) and the leftmost `\b(19|20)\d{2}\b` year in the first 3000
  characters.
- `VectorDb` (`memory/vector_db.py`): the collection is a sequence of records.
  The model covers `store_paper`, `search_similar_papers` over the hits the
  index returns, and `get_paper_by_id`. Lemmas show that a stored paper is
  retrieved with its documents joined by spaces and its stamped metadata,
  that storing leaves other papers untouched, and that search recovers paper ids.
- `ImageExtractor` (`extractors/image_extractor.py`): positional caption
  assignment, the three-tier automatic selection, the manual comma-separated
  selection and the `figures_text` listing.
- `CitationExtractor` (`extractors/citation_extractor.py`): the cut after the
  first "references"/"bibliography", the zero-width split, normalise-and-filter
  and one link per reference.
- `PdfGenerator` (`generators/pdf_generator.py`): the paragraph/bullet state
  machine of `_generate_summary_pdf`. The model proves it equal to a
  run-by-run layout: each maximal run of bullets becomes one list, and each
  maximal run of plain lines becomes one paragraph. It also covers the section
  heading and rule logic, the explanation regrouping after an equation, and the
  line classification of sections without an equation.
- `PyStr` and `PyList`: the Python string and list operations these rely on.
  This covers `split`, `strip`, `splitlines`, `join`, `replace`, `lower`,
  `isdigit`, slicing and filtered comprehensions. Most carry a contract;
  `join` and `replace` are plain recursive definitions, described by lemmas
  such as `JoinCons`, `JoinSplit`, `SplitJoinChar` and `ReplaceChar`.

Things the program gets from outside are parameters of the model:
- the current time is `now`;
- the fresh `uuid4` id is `paperId`;
- a backend exception is `backendFails`;
- the manual-selection input line is `chosen`;
- the DOI lookup is `lookupDoi`;
- the author regular expressions are `authorSearch`;
- the split pattern's match positions are `splitMarks`;
- the caption matches and OCR texts of each page are a `PageScan`.

## Model

| member | source | states |
|---|---|---|
| TextChunker.ChunkText | utils/text_chunker.py:5-20 | a zero step is an error and a negative step gives no chunks; otherwise chunk k starts at word k·step (inside the word list) and is the up-to-chunk_size words from there joined by single spaces; there are no chunks exactly when there are no words; every chunk but the last ends before the last word (no early break), and after the last chunk the loop stops because that chunk reached the end or the next start is past the last word, which fixes the number of chunks |
| TextChunker.Window | utils/text_chunker.py:13 | `words[i:i + chunk_size]` with Python slice bounds: for a non-negative size, the words from i up to i + size or the end of the list, whichever comes first |
| TextChunker.ChunkTextWords | utils/text_chunker.py:9-14 | splitting each chunk on whitespace gives back exactly the word windows the loop takes |
| TextChunker.ChunkTextBlank | utils/text_chunker.py:9-20 | there are no chunks exactly when the text has no words |
| TextChunker.ChunkTextSingle | utils/text_chunker.py:12-18 | a text of at most chunk_size words gives one chunk: its words joined by single spaces |
| TextChunker.ChunkTextSizes | utils/text_chunker.py:12-18 | every chunk has between 1 and chunk_size words, and every chunk but the last has exactly chunk_size |
| TextChunker.ChunkTextReachesEnd | utils/text_chunker.py:12-18 | the early break never loses words at the end: the last chunk is a suffix of the word list |
| TextChunker.ChunkTextOverlap | utils/text_chunker.py:12-18 | consecutive chunks share exactly `overlap` words: the words of each chunk after its first chunk_size - overlap are the first words of the next |
| TextChunker.ChunkTextReconstructs | utils/text_chunker.py:9-18 | the first step words of each chunk but the last, followed by the whole last chunk, are the text's words in order |
| PyStr.SplitJoinWords | utils/text_chunker.py:9-13 | joining the whitespace-split words with single spaces and splitting again gives the same words |
| PaperMetadata.ExtractTitle | utils/text_chunker.py:33-55 | the title is the first of the first 50 lines that meets every title condition once stripped, or the default when none does |
| PyList.FindFirst | utils/text_chunker.py:37-55 | the first-match loop with break: the index found satisfies the condition and no earlier index does |
| PaperMetadata.ExtractYear | utils/text_chunker.py:70-73 | the year is the leftmost word-bounded 19xx/20xx in the first 3000 characters, or the default when there is none |
| PaperMetadata.FindYearFrom | utils/text_chunker.py:71 | the scan finds a word-bounded 19xx/20xx at or after the start position and no match occurs before it, or reports none when none occurs |
| PaperMetadata.ExtractPaperMetadata | utils/text_chunker.py:22-75 | every field is present: the title qualifies or is the default, the year is a four-digit match or the default, the authors are the first pattern's match or the default, and the date is the clock's |
| PaperMetadata.NothingFoundDefaults | utils/text_chunker.py:26-31 | text with no title line among the first 50 lines, no year in the first 3000 characters and no author match yields all four defaults |
| PaperMetadata.EmptyTextDefaults | utils/text_chunker.py:26-31 | empty text yields all four defaults |
| VectorDb.Documents | memory/vector_db.py:30 | the chunks when there are any, otherwise the whole content as one document, so a store always adds at least one record |
| VectorDb.Stamp | memory/vector_db.py:33-34 | the copied metadata has the caller's keys plus `paper_id`, mapped to the new id, and keeps every other value |
| VectorDb.StorePaper | memory/vector_db.py:20-42 | the collection grows by one record per document, appended after the old records; record i has id `{paper_id}_{i}`, document i and the stamped metadata; the paper id is returned |
| VectorDb.RecordIdsDistinct | memory/vector_db.py:39 | the record ids of one store are pairwise distinct |
| VectorDb.PaperIdOfRecordId | memory/vector_db.py:58 | splitting a record id at `_` recovers the paper id when the id contains no `_` |
| VectorDb.PaperIdOf | memory/vector_db.py:58 | the text before the first `_` of a record id; `PaperIdOfRecordId` shows it recovers the paper id |
| VectorDb.SearchSimilarPapers | memory/vector_db.py:55-64 | one result per hit, in order, with the recovered paper id and the hit's document and metadata |
| VectorDb.Matching | memory/vector_db.py:72-75 | the `where` filter returns the paper's records in storage order, repeats included: a subsequence of the collection made of the paper's records, as many as there are, so none is dropped; it is empty exactly when no record has that paper id |
| VectorDb.MatchingIsFilter | memory/vector_db.py:72-75 | the records `where` returns are exactly the comprehension filter of the collection by paper id |
| VectorDb.GetPaperById | memory/vector_db.py:66-87 | None exactly when the backend fails or no record has that paper id; otherwise the id, the matching documents joined by spaces, and the metadata of the first matching record |
| VectorDb.GetAfterStore | memory/vector_db.py:72-83 | a freshly stored paper is retrieved with its documents joined by spaces and its stamped metadata |
| VectorDb.StoreKeepsOthers | memory/vector_db.py:36-40 | storing a paper does not change what get_paper_by_id returns for any other id |
| VectorDb.StoreKeepsWellFormed | memory/vector_db.py:33-39 | storing under an id without `_` keeps every record's `paper_id` metadata equal to the prefix of its record id |
| VectorDb.SearchRecoversPaperIds | memory/vector_db.py:58 | in a well-formed collection, the id search reports for each hit is the `paper_id` in that hit's metadata |
| ImageExtractor.CaptionFor | extractors/image_extractor.py:29 | the k-th image of a page takes the k-th caption match, or "No caption found" when there are fewer |
| ImageExtractor.CollectFigures | extractors/image_extractor.py:14-36 | one figure per image over all pages |
| ImageExtractor.CollectFiguresDescribe | extractors/image_extractor.py:14-36 | every figure records its 1-based page, its stripped positional caption and its stripped OCR text |
| ImageExtractor.CollectFiguresAt | extractors/image_extractor.py:14-32 | image j of page p is the figure at the number of images on earlier pages plus j |
| ImageExtractor.SelectFigures | extractors/image_extractor.py:38-49 | the automatic selection is a subsequence of the figures and holds at most max_selected |
| ImageExtractor.SelectPriorityTier | extractors/image_extractor.py:39-49 | when a caption starts with figure/table, the selection is the first max_selected such figures |
| ImageExtractor.SelectKeywordTier | extractors/image_extractor.py:41-49 | otherwise, when a caption has a result keyword, the selection is the first max_selected such figures |
| ImageExtractor.SelectFallbackTier | extractors/image_extractor.py:46-47 | with neither kind of caption, the selection is the first max_selected figures |
| ImageExtractor.SelectAllPriority | extractors/image_extractor.py:39-49 | when the priority figures fit within the bound, every one of them is selected |
| ImageExtractor.ChosenIds | extractors/image_extractor.py:56 | one id per comma-separated all-digit token, each at least -1 |
| ImageExtractor.ChosenIdsToken | extractors/image_extractor.py:56 | a line without a comma gives its stripped digits read as a number minus one when it is all digits once stripped, and no id otherwise |
| ImageExtractor.ChosenIdsCons | extractors/image_extractor.py:56 | the ids of `first,rest` are the ids of `first` followed by those of `rest`, so the line is read token by token, left to right |
| ImageExtractor.TokenIdsAppend | extractors/image_extractor.py:56 | reading two runs of tokens gives the first run's ids followed by the second's |
| ImageExtractor.PickFigures | extractors/image_extractor.py:57 | every picked figure is the figure of some in-range id, at most one per id, and one is picked per id exactly when every id is in range |
| ImageExtractor.PickFiguresOne | extractors/image_extractor.py:57 | one id picks its figure when it is in range and nothing otherwise |
| ImageExtractor.PickFiguresAppend | extractors/image_extractor.py:57 | picking by two runs of ids picks by the first run and then by the second, so picks are made id by id, in order, with repeats |
| ImageExtractor.PickFiguresDropsOutOfRange | extractors/image_extractor.py:57 | removing the out-of-range ids first changes nothing |
| ImageExtractor.PickFiguresInRange | extractors/image_extractor.py:57 | in-range ids pick their figures one for one, in input order and with repeats kept |
| ImageExtractor.ManualSelect | extractors/image_extractor.py:51-57 | the manual selection holds only figures, at most one per token, and is not capped by max_selected |
| ImageExtractor.ManualSelectToken | extractors/image_extractor.py:51-57 | a line without a comma selects the figure it numbers (1-based) when it is all digits once stripped and in range, and nothing otherwise |
| ImageExtractor.ManualSelectCons | extractors/image_extractor.py:51-57 | the selection for `first,rest` is the selection for `first` followed by that for `rest` |
| ImageExtractor.ChosenIdsNumbers | extractors/image_extractor.py:56 | typing the 1-based numbers separated by commas reads back as the 0-based indices |
| ImageExtractor.ManualSelectNumbers | extractors/image_extractor.py:51-57 | typing the numbers of any figures selects exactly those figures, in the typed order |
| ImageExtractor.FigureBlockPage | extractors/image_extractor.py:59-61 | the page number can be read back from a listing block: it is the digits between the block head and the first `]` |
| ImageExtractor.FiguresTextEmpty | extractors/image_extractor.py:59-61 | the listing is empty exactly when there are no figures |
| ImageExtractor.FiguresText | extractors/image_extractor.py:59-61 | the listing of the figures: their blocks joined by blank lines; `FiguresTextEmpty`, `FiguresTextAppend` and `FigureBlockPage` state its properties |
| ImageExtractor.FiguresTextAppend | extractors/image_extractor.py:59-61 | the listing of two runs of figures is their listings separated by one blank line |
| ImageExtractor.ImagesOf | extractors/image_extractor.py:68 | the returned images are the images of the selected figures, one for one and in order |
| ImageExtractor.ExtractImagesAndCaptions | extractors/image_extractor.py:7-72 | a failure gives an empty listing and no images; otherwise the listing covers every figure and the images are those of the manual selection in manual mode and of the capped automatic one otherwise, each an extracted image |
| CitationExtractor.ReferencesText | extractors/citation_extractor.py:14-19 | None exactly when neither keyword occurs in any case; otherwise everything after the leftmost keyword |
| CitationExtractor.SplitAtMarks | extractors/citation_extractor.py:21 | the split always yields at least one piece, with an empty first piece when the pattern matches at the start |
| CitationExtractor.PiecesFrom | extractors/citation_extractor.py:21 | each piece runs from a cut up to the next match position, or to the end when there is none, with no match strictly inside it |
| CitationExtractor.SplitAtMarksConcat | extractors/citation_extractor.py:21 | the zero-width split consumes nothing: its pieces concatenate back to the text |
| CitationExtractor.NormaliseClean | extractors/citation_extractor.py:25 | a normalised piece has no line break and no surrounding whitespace |
| CitationExtractor.Normalise | extractors/citation_extractor.py:25 | `ref.strip().replace("\n", " ")`, whose result `NormaliseClean` shows single-line and stripped |
| CitationExtractor.CleanReferences | extractors/citation_extractor.py:23-27 | the references are the normalised pieces longer than 50 characters that hold four consecutive digits, in order and with repeats: a subsequence of such pieces, as many as there are, so none is dropped |
| CitationExtractor.Link | extractors/citation_extractor.py:35-44 | a non-empty DOI gives the doi.org link; otherwise the link is a Scholar search |
| CitationExtractor.ScholarQuery | extractors/citation_extractor.py:35-43 | without a usable DOI (none, or an empty string) the link is the Scholar prefix followed by the reference with spaces turned into `+`; the query has no spaces, and for a reference without `+` the mapping can be undone |
| CitationExtractor.ExtractCitations | extractors/citation_extractor.py:5-46 | empty text or no keyword gives no citations; otherwise one citation per cleaned reference, in order, with the reference unchanged and its link |
| CitationExtractor.Enrich | extractors/citation_extractor.py:30-44 | one citation per reference, in order, each with the reference unchanged and the link chosen by its DOI lookup |
| CitationExtractor.CitationsClean | extractors/citation_extractor.py:23-46 | every citation's reference is single-line, stripped, longer than 50 characters and holds four consecutive digits |
| PdfGenerator.Classify | generators/pdf_generator.py:90-122 | a line is a bullet exactly when it starts with a marker and space, a sub-heading exactly when it is not a bullet and is wrapped in `**`, and paragraph text otherwise; a bullet keeps a proper suffix of the line, the cleaned item |
| PdfGenerator.CleanBullet | generators/pdf_generator.py:96 | a leading marker character and the whitespace after it are removed; any other line is unchanged |
| PdfGenerator.Step | generators/pdf_generator.py:85-122 | after each line at most one of the paragraph and bullet buffers is non-empty, and the story only grows |
| PdfGenerator.RunLayout | generators/pdf_generator.py:85-131 | the state machine, from empty buffers, appends exactly the run-by-run layout |
| PdfGenerator.GroupLinesByRuns | generators/pdf_generator.py:81-131 | the content loop groups maximal runs: one bullet list per run of bullets, one paragraph per run of plain lines, each sub-heading alone, with the source's spacer heights |
| PdfGenerator.GroupLines | generators/pdf_generator.py:81-131 | the content loop over a section's lines, from empty buffers; `GroupLinesByRuns` shows it equals the run-by-run layout |
| PdfGenerator.LayoutNoRule | generators/pdf_generator.py:81-131 | the grouped content of a section never draws a rule |
| PdfGenerator.ContentLines | generators/pdf_generator.py:75-79 | every content line is stripped, non-empty and not a `---` line, and every such stripped line is among them |
| PdfGenerator.ContentLinesIsFilter | generators/pdf_generator.py:75-79 | the content lines are exactly the stripped lines filtered by that test: in order, repeats included, none dropped |
| PdfGenerator.HeadingNonEmpty | generators/pdf_generator.py:66-73 | the first line of a stripped, non-blank section is a non-empty heading |
| PdfGenerator.SectionElements | generators/pdf_generator.py:62-136 | a blank piece adds nothing; otherwise its first line becomes the heading, and a rule closes the section exactly when it is not the last piece |
| PdfGenerator.NonBlankSection | generators/pdf_generator.py:66-136 | a non-blank section opens with its heading and a spacer and ends with the divider exactly when it is not the last piece |
| PdfGenerator.SectionHead | generators/pdf_generator.py:70-73 | a non-empty title line becomes a heading followed by a small spacer |
| PdfGenerator.SectionBody | generators/pdf_generator.py:75-131 | the body of a section draws no rule |
| PdfGenerator.SectionsFromEmpty | generators/pdf_generator.py:61-74 | the `## ` pieces draw nothing exactly when every one of them is blank |
| PdfGenerator.SectionsFrom | generators/pdf_generator.py:62-136 | the elements of the `## ` pieces in order; `SectionsFromEmpty` and `SectionsFromRule` state when it draws nothing and when it draws a rule |
| PdfGenerator.SectionsFromRule | generators/pdf_generator.py:62-136 | a rule is drawn exactly when some non-blank piece is not the last piece of the split |
| PdfGenerator.SummaryLayout | generators/pdf_generator.py:58-62 | the story opens with the summary title and a spacer |
| PyStr.JoinSplit | generators/pdf_generator.py:61 | the pieces of the `## ` split joined by the marker give the analysis text back: the split loses only the markers |
| PdfGenerator.CollectExplanationSplits | generators/pdf_generator.py:188-199 | the loop sends each starred line to the bullets and each other line to the regular lines, both groups in their original order |
| PdfGenerator.CollectExplanation | generators/pdf_generator.py:188-199 | the explanation loop; `CollectExplanationSplits` shows it splits starred and other lines, each in order |
| PdfGenerator.NonEmptyLines | generators/pdf_generator.py:192-195 | every kept line is stripped and non-empty, and no more lines come out than go in |
| PdfGenerator.NonEmptyLinesIsFilter | generators/pdf_generator.py:192-195 | the kept lines are exactly the stripped lines that are non-empty: in order, repeats included, none dropped |
| PdfGenerator.NonEmptyLinesKeeps | generators/pdf_generator.py:192-195 | no line with text is skipped: every line that is non-empty once stripped is kept, stripped |
| PdfGenerator.ExplanationElements | generators/pdf_generator.py:201-209 | the elements after an equation always end with a 12-point spacer |
| PdfGenerator.ExplanationBulletsFirst | generators/pdf_generator.py:188-209 | after an equation, all starred lines form one list placed before every other line, then a spacer |
| PdfGenerator.PlainSectionElement | generators/pdf_generator.py:212-221 | a `###` line becomes a sub-heading with no surrounding whitespace, a starred line a `• ` body line whose item has no surrounding spaces or stars, and any other line is kept as it is |
| PdfGenerator.PlainSectionElements | generators/pdf_generator.py:211-222 | a section without an equation gives one element per non-empty line, in order, then a spacer |
| PdfGenerator.PlainSectionSubHeading | generators/pdf_generator.py:216-217 | a `###` line with no other `#` becomes the sub-heading of the rest of the line, stripped |
| PdfGenerator.PlainSectionBullet | generators/pdf_generator.py:218-219 | a starred line becomes `• ` followed by the line with exactly the maximal runs of spaces and stars removed from both ends |
| PyList.Filter | extractors/citation_extractor.py:23-27 | a filtered comprehension gives a subsequence of kept elements, one per kept position, so every kept element appears, repeats included |
| PyList.FilterUnique | extractors/citation_extractor.py:23-27 | those properties fix the result: any subsequence of kept elements as long as the number of kept positions is the filter's result |
| PyList.FilterAppend | extractors/image_extractor.py:57 | filtering a concatenation filters each part in turn |
| PyStr.SplitCharCons | extractors/image_extractor.py:56 | a piece without the separator character, then the separator, comes off the front of the split |
| PyStr.StripSetIsTrim | generators/pdf_generator.py:197 | `strip(chars)` removes exactly the maximal runs of those characters at both ends |
| PyStr.SplitJoinChar | extractors/image_extractor.py:56 | joining parts that do not contain a separator character and splitting on that character gives the parts back |

## Left out

- Regular expressions are not interpreted in general. The caption pattern's matches are the `captions` of each page and the split pattern's match positions are `splitMarks`. The three author patterns are the oracle `authorSearch`. The year pattern and the `re.sub` of bullet markers are written out by hand.
- In `_generate_equations_pdf`, these are not modelled: the page-marker cleanup, the `---` section split and the `Equation:`/`$$` match (generators/pdf_generator.py:141-153). The model starts from the explanation text and from sections without an equation.
- Character classes are ASCII. `isupper`, `lower`, `isdigit` and `\w` cover ASCII letters and digits only; the whitespace set of `strip` and `split` is Python's full `isspace` set.
- ImageExtractor.ExtractImagesAndCaptions: the `except` branch (which returns `("", [])`) is taken when the `failed` parameter says that reading the pages, decoding an image, OCR or the prompt raised inside the `try`; which inputs make them raise is not modelled. Opening the PDF (extractors/image_extractor.py:10) happens before the `try`, so a failure to open it propagates to the caller; that path is not modelled. The model reads an all-digit token with ASCII digits only and skips any other token; a token of Unicode digits such as `²` passes `isdigit()` in the source but makes `int()` raise, and that path is represented by `failed`.
- I/O and foreign libraries are not modelled: PDF opening and text extraction, image decoding, OCR, the ReportLab story rendering, matplotlib/LaTeX rendering and the network call of `lookup_doi`. Their results are parameters of the model, listed in the introduction.
- The clock (`datetime.now`) and `uuid4` become the parameters `now` and `paperId`.
- The embeddings, the nearest-neighbour ranking and the float similarity `1 - distance` of `search_similar_papers` (memory/vector_db.py:48-52, 61) are not modelled: the hits the index returns are an input. `collection.get` is taken to return records in storage order.
- Console output (`print`) and the prompt itself are left out; the typed line is the `chosen` parameter.
- TextChunker.ChunkTextWords: the property lemmas about chunks assume a positive chunk size and a positive step; they do not cover other sizes (a zero chunk size with overlap -1, for instance, gives one empty chunk per word). ChunkText itself covers every chunk size and overlap.
- TextChunker.ChunkTextReachesEnd: also assumes a non-negative overlap, and so do ChunkTextOverlap and ChunkTextReconstructs. With a negative overlap the step exceeds chunk_size, so the windows skip words.
- VectorDb.PaperIdOfRecordId: holds only for paper ids without `_`, which `uuid4` strings are; an id with `_` is cut short by the source.
- VectorDb.StorePaper: has no failure outcome. An exception from `collection.add` (memory/vector_db.py:36-40) propagates to the caller in the source; the model only describes a store that succeeds.
