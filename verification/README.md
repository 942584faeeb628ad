# PDF outline extractor — a Dafny model

This project models the core of a tool that turns a PDF into a JSON outline, in `process_pdfs.py`.

For each page, the tool does the following:

1. It reads the text spans the PDF parser reports, grouped into blocks and lines.
2. It merges the spans of every line into one line record: the text, the largest font size, the bold and italic flags, the starting x position, a centre flag and the 1-based page number.
3. It drops lines whose stripped text is shorter than two characters.
4. It builds a 15-column feature row for every kept line (`build_feature_vector`), together with a metadata record (text, page, font size).

After the pages:

- A document with no kept line returns its title and an empty outline at once.
- Otherwise the rows go through a trained classifier and a label decoder. The outline keeps every line of at least 14 points whose label is not `"None"`, as `{level, text, page}`, in line order.
- The title is the file's base name.

The model has six modules:

| file | module | contents |
|---|---|---|
| `common.dfy` | `Common` | `Option` and `Result` |
| `strings.dfy` | `Strings` | ASCII models of the `str` methods the code uses (`strip`, `split`, `lower`, `isupper`, `isdigit`, substring `in`), and of the path function `os.path.basename` |
| `features.dfy` | `Features` | `build_feature_vector`, its size tier, caps ratio and keyword flag, and the column schema |
| `segmenter.dfy` | `Segmenter` | the span-merge loop as a fold (`Step`/`Fold`), the line filter, and the walk over blocks and pages |
| `outline.dfy` | `Outline` | the `zip(tags, lines_meta)` filter that assembles the outline |
| `pipeline.dfy` | `Pipeline` | `analyze_document` end to end, with the classifier as a parameter |

Each operation is related by lemmas to an independent description:

- `Strip` has the slice it keeps.
- `Contains` has the existence of an offset.
- The merge fold has the reference join `Joined`, the maximum and the "some span" predicates.
- Page extraction has the per-position merge `PageLineAt` for membership, and for order the lines in loop order (`Visits`) with the selection `Select(KeptFrom)` of the survivors.
- `Assemble` has the selection `Project(AcceptedIndices)`.
- `Collect` has the per-line lists `RowsOf` and `MetasOf`.
- `SizeTier` has the threshold count.

The following choices follow the code:

- The title is `os.path.basename(pdf_file)`, so the extension is kept.
- `zip` stops at the shorter list. `Assemble` models this truncation, and the completeness lemma assumes one label per row.
- `pd.DataFrame(features_list, columns=column_headers)` raises when the classifier's column list does not have 15 names. This error is modelled as `Failure(ColumnMismatch(..))`. An empty document returns before the frame is built, so it never fails.
- `fsize` starts at the integer 0. A line whose spans all have non-positive sizes therefore keeps size 0, which is modelled as `0.0`.

## Model

| member | source | states |
|---|---|---|
| Features.BuildFeatureVector | process_pdfs.py:17-38 | The length column is the text's length and the caps ratio lies in [0, 1]. FeatureVectorBounds and RowFollowsSchema state the rest. |
| Features.SizeTier | process_pdfs.py:27-32 | The tier is between 0 and 3. SizeTierCountsThresholds gives each bucket. |
| Features.CapsRatio | process_pdfs.py:23 | The ratio lies in [0, 1]. CapsRatioRange states when it is 0, positive or 1. Its numerator is CountUpper, which CountUpperAppend fixes for every text. |
| Features.FeatureVectorBounds | process_pdfs.py:17-38 | Size, page, x and text length are passed through. Bold, centre and italic are 0/1, and so are the digit, colon, keyword and all-upper flags. The trimmed length is between 0 and the length, and is 0 exactly when there are no words. The caps ratio is in [0, 1] and is 0 for empty text. An all-upper-case text has a positive caps ratio. The tier is in 0..3 and is positive exactly from 14 points. |
| Features.SizeTierCountsThresholds | process_pdfs.py:27-32 | The size tier equals the number of thresholds (14, 18, 22) the size reaches. It is 3, 2, 1 or 0 exactly on [22, ∞), [18, 22), [14, 18) and below 14. |
| Features.SizeTierMonotone | process_pdfs.py:27-32 | A larger font never gets a lower tier. |
| Features.CapsRatioRange | process_pdfs.py:23 | The upper-case count divided by max(len, 1) lies in [0, 1]. It is 0 for empty text, positive exactly when some character is upper case, and 1 exactly when every character is. |
| Features.CountUpperAll | process_pdfs.py:23 | The upper-case count equals the length exactly when every character is upper case. |
| Features.RowFollowsSchema | process_pdfs.py:34-38 | The row has exactly 15 cells, the schema names each column once, and cell i holds the value of schema column i. |
| Features.Row | process_pdfs.py:34-38 | The list handed to the classifier. RowFollowsSchema states that it has one cell per schema column, in the source's column order. |
| Features.FeatureFlagsIff | process_pdfs.py:21-25 | The digit flag is 1 exactly when some character is a digit. The colon flag is 1 exactly when the text holds ':'. The keyword flag is 1 exactly when a keyword occurs in the lower-cased text. The all-upper flag is 1 exactly when there is an upper-case letter and no lower-case one. |
| Features.HasKeyword | process_pdfs.py:24 | Whether one of the four keywords is a substring of the lower-cased text. FeatureFlagsIff restates it as an occurrence offset. |
| Strings.Strip | process_pdfs.py:19 | The stripped text is no longer than the input and neither starts nor ends with whitespace. |
| Strings.StripSlice | process_pdfs.py:19 | `strip()` returns the contiguous slice left after removing only whitespace at both ends. |
| Strings.TrimStartSpec | process_pdfs.py:19 | Leading trimming removes only whitespace and keeps a suffix that does not start with whitespace. |
| Strings.TrimEndSpec | process_pdfs.py:19 | Trailing trimming removes only whitespace and keeps a prefix that does not end with whitespace. |
| Strings.StripIdempotent | process_pdfs.py:73 | Stripping an already stripped text changes nothing. |
| Strings.StripEmptyIff | process_pdfs.py:19 | The stripped text is empty exactly when the text is all whitespace. |
| Strings.WordCount | process_pdfs.py:20 | `len(s.split())`. WordCountZeroIff (no words exactly in all-whitespace text), WordCountOneWord (a whitespace-free run is one word) and WordCountSplit (a whitespace character splits the count) fix its value on every text. |
| Strings.WordCountZeroIff | process_pdfs.py:20 | `split()` yields no words exactly when the text is all whitespace. |
| Strings.WordCountBound | process_pdfs.py:20 | Words are separated by whitespace, so a text of n characters has at most (n + 1) / 2 words, and at most n / 2 when it ends in whitespace. |
| Strings.WordCountAfterSpace | process_pdfs.py:20 | Text that follows whitespace, or starts the string, has its words counted on their own and added to the words before it. |
| Strings.WordCountSplit | process_pdfs.py:20 | A whitespace character separates words: the words of a + c + b are those of a followed by those of b. |
| Strings.WordCountOneWord | process_pdfs.py:20 | A non-empty text without whitespace is exactly one word. |
| Strings.Contains | process_pdfs.py:22-24 | Substring `in`. ContainsIff relates it to the existence of an occurrence offset. |
| Strings.ContainsIff | process_pdfs.py:22-24 | Substring `in` holds exactly when the pattern occurs at some offset of the text. |
| Strings.ContainsSound | process_pdfs.py:22-24 | A successful substring search returns an offset where the pattern occurs. |
| Strings.ContainsComplete | process_pdfs.py:22-24 | Every occurrence of the pattern makes substring `in` true. |
| Strings.CountUpperBounds | process_pdfs.py:23 | The upper-case count is at most the length, and positive exactly when some character is upper case. |
| Strings.CountUpperAppend | process_pdfs.py:23 | The upper-case count of a concatenation is the sum of the parts' counts. A single character counts 1 exactly when it is upper case. |
| Strings.Basename | process_pdfs.py:92 | The title is a '/'-free suffix of the path, preceded by '/' unless it is the whole path. |
| Strings.Lower | process_pdfs.py:24 | `str.lower()` over ASCII. LowerSpec states what it does to each character. |
| Strings.LowerSpec | process_pdfs.py:24 | The length is kept and no upper-case letter is left. Each upper-case letter becomes its lower-case partner, and every other character is unchanged. |
| Strings.CountUpper | process_pdfs.py:23 | The count of upper-case characters. CountUpperAppend fixes its value on every text. CountUpperBounds and CountUpperAll state when it is 0 or the full length. |
| Strings.HasDigit | process_pdfs.py:21 | `any(c.isdigit() for c in text)`: some character is a digit. FeatureFlagsIff ties the digit flag to it. |
| Strings.IsUpperText | process_pdfs.py:25 | `str.isupper()`: at least one upper-case letter and no lower-case one. FeatureFlagsIff ties the all-upper flag to it, and CapsRatioRange makes its caps ratio positive. |
| Segmenter.Step | process_pdfs.py:61-71 | One iteration grows the text, keeping the text so far as a prefix. It never lowers the size and reaches at least the span's size, never clears a style flag, and keeps x once the text is non-empty. |
| Segmenter.Fold | process_pdfs.py:55-71 | The span loop. FoldText, FoldSize, FoldBold, FoldItalic and FoldX give its closed form. |
| Segmenter.FoldText | process_pdfs.py:61-65 | The loop's text is the starting text followed by every span's stripped text plus one space, in span order. |
| Segmenter.FoldSize | process_pdfs.py:66-67 | The loop's size is at least the starting size and every span's size, and is either the starting size or some span's size. |
| Segmenter.FoldBold | process_pdfs.py:68-69 | The bold flag is set exactly when it started set or some span's lower-cased font name contains "bold". |
| Segmenter.FoldItalic | process_pdfs.py:70-71 | The italic flag is set exactly when it started set or some span's lower-cased font name contains "italic". |
| Segmenter.FoldX | process_pdfs.py:62-63 | Starting from empty text, x is the first span's left edge and is never replaced later. |
| Segmenter.CenteredIff | process_pdfs.py:77 | A line is centred exactly when its x lies strictly within 50 points of the page middle. |
| Segmenter.IsCentered | process_pdfs.py:77 | The centre test. CenteredIff states it as an open band of 50 points around the page middle. |
| Segmenter.FontHas | process_pdfs.py:68-71 | The style name is a substring of the lower-cased font name. FoldBold and FoldItalic state the line's flags as "some span's font has it". |
| Segmenter.MergeLine | process_pdfs.py:54-77 | A kept line has at least two characters of text and carries the page number it was given. |
| Segmenter.MergeLineSpec | process_pdfs.py:54-77 | A line is kept exactly when its stripped merged text has at least two characters. A kept line has at least one span. Its text is the stripped join, its size is the maximum span size, its flags say whether some font has the style, its x is the first span's, and its centre flag is computed from that x. |
| Segmenter.BlankSpanLeavesDoubleSpace | process_pdfs.py:65 | A span whose text is all whitespace between two non-blank spans still adds its separator, so the kept text has two spaces there. |
| Segmenter.ExtractLines | process_pdfs.py:54-75 | A block keeps at most as many records as it has lines, each with the block's page number and at least two characters. ExtractLinesInOrder gives their order. |
| Segmenter.ExtractLinesExact | process_pdfs.py:54-75 | Membership: a record is kept for a block exactly when it is the merge of one of the block's lines. |
| Segmenter.ExtractBlocks | process_pdfs.py:50-75 | Every record kept for a page carries that page's number and has at least two characters. ExtractBlocksInOrder gives their order. |
| Segmenter.ExtractBlocksExact | process_pdfs.py:50-75 | Membership: a record is kept for a page exactly when it is the merge of some line of one of its text blocks. Blocks without lines contribute nothing. |
| Segmenter.ExtractPages | process_pdfs.py:46-75 | The page loop. ExtractPagesOrdered and ExtractPagesInOrder state its result. |
| Segmenter.ExtractPagesOrdered | process_pdfs.py:46-87 | Kept lines carry page numbers within the document's range, in non-decreasing order, and have at least two characters. |
| Segmenter.ExtractPagesComplete | process_pdfs.py:46-75 | Every line of every page that survives merging is kept. |
| Segmenter.ExtractPagesSound | process_pdfs.py:46-75 | Every kept line is the merge of some line of some page. |
| Segmenter.ExtractDocumentExact | process_pdfs.py:46-87 | Membership: for a whole document, a record is kept exactly when it is the merge of some line, and it carries that line's 1-based page number. |
| Segmenter.KeptFrom | process_pdfs.py:54-75 | The positions of the visited lines that survive merging, in increasing order, each surviving, none left out. |
| Segmenter.SurvivorsAreSelection | process_pdfs.py:54-85 | Filtering the visited lines gives the merges at exactly the surviving positions, each once, in visiting order. |
| Segmenter.SurvivorsAppend | process_pdfs.py:46-54 | Filtering the lines of consecutive blocks or pages gives the concatenation of the parts' results. |
| Segmenter.ExtractLinesInOrder | process_pdfs.py:54-75 | A block's kept records are the survivors of its lines, in line order. |
| Segmenter.ExtractBlocksInOrder | process_pdfs.py:50-75 | A page's kept records are the survivors of its text blocks' lines, block by block and line by line. |
| Segmenter.ExtractPagesInOrder | process_pdfs.py:46-75 | The kept records of consecutive pages are the survivors of their lines, page by page. |
| Segmenter.ExtractDocumentInOrder | process_pdfs.py:46-85 | A document's kept records are the merges of exactly the surviving lines, each appended once, in page, block and line loop order. |
| Segmenter.ExtractDocument | process_pdfs.py:46-75 | The page loop with pages numbered from 1. ExtractDocumentExact states membership and ExtractDocumentInOrder states order. |
| Outline.PairCount | process_pdfs.py:98 | `zip` yields as many pairs as the shorter list has: no more than either list, and exactly as many as one of them. |
| Outline.Accepted | process_pdfs.py:99-101 | A pair is kept when the font size is at least 14 and the label is not "None". OutlineSound and OutlineComplete state the outline in terms of it. |
| Outline.Assemble | process_pdfs.py:98-106 | The outline has no more entries than there are pairs. |
| Outline.AcceptedFrom | process_pdfs.py:98-101 | The accepted positions are increasing. Each is within the pairs, with a size of at least 14 and a label other than "None", and no such position is missing. |
| Outline.OutlineIsSelection | process_pdfs.py:98-106 | The outline is exactly the entries of the accepted pairs, in input order. |
| Outline.OutlineSound | process_pdfs.py:98-106 | Every outline entry is the level, text and page of a pair whose size is at least 14 and whose label is not "None". |
| Outline.OutlineComplete | process_pdfs.py:98-106 | Every pair whose size is at least 14 and whose label is not "None" appears in the outline. |
| Outline.OutlinePagesSorted | process_pdfs.py:98-106 | Lines in page order give an outline in page order. |
| Pipeline.Collect | process_pdfs.py:79-89 | Collecting lines adds exactly one row and one record per line. CollectAppends gives their contents. |
| Pipeline.CollectAppends | process_pdfs.py:79-89 | Collecting lines appends one feature row and one metadata record per line, in order, to the lists already there. |
| Pipeline.ReferenceListsAligned | process_pdfs.py:79-89 | The reference row list and metadata list both have one entry per line, and entry i describes line i. |
| Pipeline.BatchOf | process_pdfs.py:79-89 | The feature list and the metadata list are as long as the kept lines, and row i and record i both describe line i. |
| Pipeline.Frame | process_pdfs.py:94 | One row per feature vector, each with 15 cells. |
| Pipeline.Tags | process_pdfs.py:94-96 | The decoded labels the classifier gives to the frame of the document's rows. EmptyDocumentIgnoresClassifier shows they are not consulted for an empty document. |
| Pipeline.AnalyzeDocument | process_pdfs.py:91-111 | A successful result's title is the base name. The result fails exactly when there are kept lines and the classifier's column list is not 15 long. With no kept line the result is the base name and an empty outline. |
| Pipeline.EmptyDocumentIgnoresClassifier | process_pdfs.py:91-92 | A document with no kept line gives the same result whatever the classifier. |
| Pipeline.AssembleFromLines | process_pdfs.py:98-106 | Each entry built from labelled lines is one of those lines, with at least 14 points, its label as level and not "None", and the line's text and page. Text-length and page bounds that every line meets hold for every entry. |
| Pipeline.OutlineIsDocumentSelection | process_pdfs.py:91-111 | On success, the outline is the projection of the document's metadata records at exactly the accepted positions, in line order: an order-preserving selection of the kept lines. |
| Pipeline.DocumentLinesBounded | process_pdfs.py:46-87 | Every kept line has at least two characters and a page number between 1 and the page count. |
| Pipeline.OutlineFromKeptLines | process_pdfs.py:79-106 | Every outline entry is a kept line of at least 14 points with at least two characters. Its level is that line's label, which is not "None", and its text and page are the line's. |
| Pipeline.OutlineHasEveryHeading | process_pdfs.py:94-106 | With one label per row, every kept line of at least 14 points whose label is not "None" is in the outline. |
| Pipeline.AssembleInPageOrder | process_pdfs.py:98-106 | Lines in page order give outline entries in page order. |
| Pipeline.OutlineInPageOrder | process_pdfs.py:46-111 | Outline entries are in page order. |
| Pipeline.OutlinePagesInRange | process_pdfs.py:46-111 | Every outline entry's page is between 1 and the document's page count. |
| Pipeline.KeptLinesAreStripped | process_pdfs.py:65-80 | The text of every kept line is already stripped: stripping it again changes nothing. |
| Pipeline.KeptRowsAreTrimmed | process_pdfs.py:73-82 | A kept line's text is already stripped, so its row's trimmed length equals its length. |
| Pipeline.RowsMatchMetadata | process_pdfs.py:79-89 | A line's feature row and its metadata record agree on page, font size and text length. |

## Left out

- Opening and parsing the PDF (`fitz.open`, `load_page`, `get_text("dict")`) is left out. The parsed document is an input value of pages, blocks, lines and spans.
- The classifier internals are left out: loading the model and the label encoder (`joblib.load`), `DataFrame` construction beyond its column-count check, `predict` and `inverse_transform`. The classifier is a parameter: its column names plus a total function from rows to decoded labels. scikit-learn's check of the column names themselves is not modelled, only their number.
- `process_directory` is left out: listing the directory, the `.pdf` filter, writing JSON files and the messages it prints are all I/O.
- `validate_output.py` is a separate checking script and is not part of this model.
- Strings.IsSpace: only the six whitespace characters space, `\t`, `\n`, `\r`, `\x0b` and `\x0c` are modelled. Python's `strip` and `split` also treat the separators U+001C–U+001F and non-ASCII Unicode spaces as whitespace.
- Strings.IsUpperChar: only ASCII letters and digits are classified. Python's `isupper`, `lower` and `isdigit` also recognise non-ASCII cased letters and digits.
- Features.FeatureVectorBounds: the keyword, digit, colon and all-upper flags are stated only to be 0/1. FeatureFlagsIff states separately when each one is 1.
- Floating-point arithmetic is left out. Sizes, x positions, page widths and the caps ratio are exact reals.
- Python's `None` for `x_pos` is left out. It can only reach the centre test when a line has no span, and such a line is always dropped first.
