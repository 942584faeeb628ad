/**
 The line segmenter: the spans of each structural line that the PDF parser
 reports are folded into one line record (text, largest font size, bold and
 italic flags, starting x, centre flag, page number), and lines whose merged
 text is shorter than two characters are dropped.
 */
module Segmenter {
  import opened Common
  import opened Strings

  /** Half-width, in points, of the band around the page centre in which a
      line counts as centred. */
  const CenterTolerance: real := 50.0

  /** Shortest stripped text a line may have and still be kept. */
  const MinLineLength: nat := 2

  /** One styled text run: its text, font size, font name and the left edge
      (`bbox[0]`) of its bounding box. */
  datatype Span = Span(text: string, size: real, font: string, x: real)

  datatype TextLine = TextLine(spans: seq<Span>)

  /** A text block carries lines; any other block (an image) has no "lines"
      entry and is skipped. */
  datatype Block = TextBlock(lines: seq<TextLine>) | OtherBlock

  datatype Page = Page(width: real, blocks: seq<Block>)

  type Document = seq<Page>

  /** One kept line; `page` is 1-based. */
  datatype LineRecord = LineRecord(
    text: string, size: real, bold: bool, italic: bool,
    x: real, center: bool, page: int)

  // ---------------------------------------------------------------------
  // merging the spans of one line

  /** The variables of the merge loop: text so far, largest size so far,
      bold and italic flags, and the x position once one is known. */
  datatype MergeState = MergeState(txt: string, fsize: real, bold: bool, italic: bool, x: Option<real>)

  const Initial: MergeState := MergeState("", 0.0, false, false, None)

  /** Case-insensitive substring match of `style` on the span's font name. */
  predicate FontHas(sp: Span, style: string) {
    Contains(Lower(sp.font), style)
  }

  /** One iteration of the merge loop.  The x position is taken while the
      text is still empty, before this span's text is appended. */
  function Step(st: MergeState, sp: Span): (r: MergeState)
    ensures |r.txt| > |st.txt| && r.txt[..|st.txt|] == st.txt
    ensures r.fsize >= st.fsize && r.fsize >= sp.size
    ensures (st.bold ==> r.bold) && (st.italic ==> r.italic)
    ensures |st.txt| > 0 ==> r.x == st.x
  {
    MergeState(
      st.txt + Strip(sp.text) + " ",
      if sp.size > st.fsize then sp.size else st.fsize,
      st.bold || FontHas(sp, "bold"),
      st.italic || FontHas(sp, "italic"),
      if |st.txt| == 0 then Some(sp.x) else st.x)
  }

  /** The merge loop over a sequence of spans. */
  function Fold(st: MergeState, spans: seq<Span>): MergeState
    decreases |spans|
  {
    if |spans| == 0 then st else Fold(Step(st, spans[0]), spans[1..])
  }

  /** Reference text of a merged line before the final strip: every span's
      stripped text followed by one space, an empty span included. */
  function Joined(spans: seq<Span>): string {
    if |spans| == 0 then "" else Strip(spans[0].text) + " " + Joined(spans[1..])
  }

  /** `m` is the largest span size, or 0 when no span is larger than 0. */
  ghost predicate IsMaxSize(m: real, spans: seq<Span>) {
    && m >= 0.0
    && (forall i :: 0 <= i < |spans| ==> spans[i].size <= m)
    && (m == 0.0 || exists i :: 0 <= i < |spans| && spans[i].size == m)
  }

  /** Some span's font name contains `style`. */
  predicate AnyFontHas(spans: seq<Span>, style: string) {
    exists i :: 0 <= i < |spans| && FontHas(spans[i], style)
  }

  /** The merge loop's text is the reference join appended to the text it
      started from. */
  lemma {:induction false} FoldText(st: MergeState, spans: seq<Span>)
    ensures Fold(st, spans).txt == st.txt + Joined(spans)
    decreases |spans|
  {
    if |spans| > 0 {
      var next := Step(st, spans[0]);
      var rest := spans[1..];
      FoldText(next, rest);
      assert Fold(st, spans) == Fold(next, rest);
      var a, b, j := st.txt, Strip(spans[0].text), Joined(rest);
      assert Joined(spans) == b + " " + j;
      assert next.txt == a + b + " ";
      assert a + b + " " + j == a + (b + " " + j);
    }
  }

  /** The merge loop's size is the largest of the starting size and the span
      sizes. */
  lemma {:induction false} FoldSize(st: MergeState, spans: seq<Span>)
    ensures Fold(st, spans).fsize >= st.fsize
    ensures forall i :: 0 <= i < |spans| ==> spans[i].size <= Fold(st, spans).fsize
    ensures Fold(st, spans).fsize == st.fsize
            || exists i :: 0 <= i < |spans| && spans[i].size == Fold(st, spans).fsize
    decreases |spans|
  {
    if |spans| > 0 {
      var next := Step(st, spans[0]);
      var rest := spans[1..];
      FoldSize(next, rest);
      var m := Fold(next, rest).fsize;
      assert Fold(st, spans).fsize == m;
      forall i | 0 <= i < |spans|
        ensures spans[i].size <= m
      {
        if i > 0 {
          assert spans[i] == rest[i - 1];
        }
      }
      if m != next.fsize {
        var i :| 0 <= i < |rest| && rest[i].size == m;
        assert spans[i + 1].size == m;
      } else if next.fsize != st.fsize {
        assert spans[0].size == m;
      }
    }
  }

  /** The merge loop's bold flag says whether it started set or some span's
      font is bold. */
  lemma {:induction false} FoldBold(st: MergeState, spans: seq<Span>)
    ensures Fold(st, spans).bold == (st.bold || AnyFontHas(spans, "bold"))
    decreases |spans|
  {
    if |spans| > 0 {
      FoldBold(Step(st, spans[0]), spans[1..]);
      AnyFontHasCons(spans, "bold");
    }
  }

  /** The merge loop's italic flag says whether it started set or some
      span's font is italic. */
  lemma {:induction false} FoldItalic(st: MergeState, spans: seq<Span>)
    ensures Fold(st, spans).italic == (st.italic || AnyFontHas(spans, "italic"))
    decreases |spans|
  {
    if |spans| > 0 {
      FoldItalic(Step(st, spans[0]), spans[1..]);
      AnyFontHasCons(spans, "italic");
    }
  }

  /** Starting from empty text, the merge loop takes the first span's x and
      keeps it: after one span the text holds at least its separating space. */
  lemma {:induction false} FoldX(st: MergeState, spans: seq<Span>)
    ensures Fold(st, spans).x == if |spans| > 0 && |st.txt| == 0 then Some(spans[0].x) else st.x
    decreases |spans|
  {
    if |spans| > 0 {
      FoldX(Step(st, spans[0]), spans[1..]);
    }
  }

  lemma AnyFontHasCons(spans: seq<Span>, style: string)
    requires |spans| > 0
    ensures AnyFontHas(spans, style) == (FontHas(spans[0], style) || AnyFontHas(spans[1..], style))
  {
    if AnyFontHas(spans[1..], style) {
      var i :| 0 <= i < |spans[1..]| && FontHas(spans[1..][i], style);
      assert FontHas(spans[i + 1], style);
    }
    if AnyFontHas(spans, style) && !FontHas(spans[0], style) {
      var i :| 0 <= i < |spans| && FontHas(spans[i], style);
      assert FontHas(spans[1..][i - 1], style);
    }
  }

  function Abs(v: real): real {
    if v < 0.0 then -v else v
  }

  /** `abs(x - width / 2) < 50` */
  predicate IsCentered(x: real, width: real) {
    Abs(x - width / 2.0) < CenterTolerance
  }

  /** The centre flag is a fixed band of 50 points on each side of the page
      middle, whatever the page width. */
  lemma CenteredIff(x: real, width: real)
    ensures IsCentered(x, width) <==> width / 2.0 - 50.0 < x < width / 2.0 + 50.0
  {
  }

  /** The merge of one line, or None when its stripped text is shorter than
      two characters.  `MergeLineSpec` states what a kept line holds. */
  function MergeLine(line: TextLine, width: real, pageNo: int): (r: Option<LineRecord>)
    ensures r.Some? ==> |r.value.text| >= MinLineLength && r.value.page == pageNo
  {
    FoldText(Initial, line.spans);
    FoldX(Initial, line.spans);
    var st := Fold(Initial, line.spans);
    assert st.txt == Joined(line.spans) by { assert "" + Joined(line.spans) == Joined(line.spans); }
    var content := Strip(st.txt);
    if |content| == 0 || |content| < MinLineLength then None
    else
      var x := st.x.value;
      Some(LineRecord(content, st.fsize, st.bold, st.italic, x, IsCentered(x, width), pageNo))
  }

  /** A line is kept exactly when its stripped merged text has at least two
      characters.  A kept line has at least one span; its text is the
      stripped join of the spans' stripped texts, its size the largest span
      size (at least 0), its bold and italic flags say whether some span's
      font name has that style, and its x is the first span's. */
  lemma MergeLineSpec(line: TextLine, width: real, pageNo: int)
    ensures MergeLine(line, width, pageNo).Some? <==> |Strip(Joined(line.spans))| >= MinLineLength
    ensures MergeLine(line, width, pageNo).Some? ==>
      var r := MergeLine(line, width, pageNo).value;
      && |line.spans| > 0
      && r.text == Strip(Joined(line.spans))
      && IsMaxSize(r.size, line.spans)
      && (r.bold <==> AnyFontHas(line.spans, "bold"))
      && (r.italic <==> AnyFontHas(line.spans, "italic"))
      && r.x == line.spans[0].x
      && r.center == IsCentered(line.spans[0].x, width)
      && r.page == pageNo
  {
    FoldText(Initial, line.spans);
    FoldSize(Initial, line.spans);
    FoldBold(Initial, line.spans);
    FoldItalic(Initial, line.spans);
    FoldX(Initial, line.spans);
    assert Fold(Initial, line.spans).txt == Joined(line.spans) by {
      assert "" + Joined(line.spans) == Joined(line.spans);
    }
  }

  /** A span whose text strips to nothing still contributes its separating
      space, so a blank span between two words leaves a double space. */
  lemma BlankSpanLeavesDoubleSpace(s1: Span, s2: Span, s3: Span, width: real, pageNo: int)
    requires |Strip(s1.text)| > 0 && AllSpace(s2.text) && |Strip(s3.text)| > 0
    ensures MergeLine(TextLine([s1, s2, s3]), width, pageNo).Some?
    ensures MergeLine(TextLine([s1, s2, s3]), width, pageNo).value.text
            == Strip(s1.text) + "  " + Strip(s3.text)
  {
    JoinedBlankMiddle(s1, s2, s3);
    MergeLineSpec(TextLine([s1, s2, s3]), width, pageNo);
  }

  lemma JoinedBlankMiddle(s1: Span, s2: Span, s3: Span)
    requires |Strip(s1.text)| > 0 && AllSpace(s2.text) && |Strip(s3.text)| > 0
    ensures Strip(Joined([s1, s2, s3])) == Strip(s1.text) + "  " + Strip(s3.text)
  {
    StripEmptyIff(s2.text);
    var t1, t3 := Strip(s1.text), Strip(s3.text);
    var j3 := JoinedCons(s3, []);
    var j2 := JoinedCons(s2, [s3]);
    var j1 := JoinedCons(s1, [s2, s3]);
    assert [s3] + [] == [s3] && [s2] + [s3] == [s2, s3] && [s1] + [s2, s3] == [s1, s2, s3];
    assert Joined([]) == "";
    JoinThree(t1, t3);
    StripTrailingSpace(t1 + "  " + t3);
  }

  lemma JoinThree(t1: string, t3: string)
    ensures t1 + " " + ("" + " " + (t3 + " " + "")) == t1 + "  " + t3 + " "
  {
  }

  /** One step of the reference join, returned for the caller's use. */
  lemma JoinedCons(sp: Span, spans: seq<Span>) returns (j: string)
    ensures j == Joined([sp] + spans) == Strip(sp.text) + " " + Joined(spans)
  {
    assert ([sp] + spans)[1..] == spans;
    j := Joined([sp] + spans);
  }

  /** Stripping a text that has no whitespace at its ends, followed by one
      space, gives that text back. */
  lemma StripTrailingSpace(x: string)
    requires |x| > 0 && !IsSpace(x[0]) && !IsSpace(x[|x| - 1])
    ensures Strip(x + " ") == x
  {
    var y := x + " ";
    assert y[0] == x[0];
    assert TrimStart(y) == y;
    assert y[..|y| - 1] == x;
    assert IsSpace(y[|y| - 1]);
    assert TrimEnd(y) == TrimEnd(x);
  }

  // ---------------------------------------------------------------------
  // walking a page and a document

  /** The kept lines of one block, in order. */
  function ExtractLines(lines: seq<TextLine>, width: real, pageNo: int): (r: seq<LineRecord>)
    ensures |r| <= |lines|
    ensures forall k :: 0 <= k < |r| ==> r[k].page == pageNo && |r[k].text| >= MinLineLength
  {
    if |lines| == 0 then []
    else
      var rest := ExtractLines(lines[1..], width, pageNo);
      var m := MergeLine(lines[0], width, pageNo);
      if m.Some? then [m.value] + rest else rest
  }

  /** A block keeps exactly the lines that survive merging. */
  lemma {:induction false} ExtractLinesExact(lines: seq<TextLine>, width: real, pageNo: int)
    ensures forall rec :: rec in ExtractLines(lines, width, pageNo) ==>
              exists i :: 0 <= i < |lines| && MergeLine(lines[i], width, pageNo) == Some(rec)
    ensures forall i :: 0 <= i < |lines| && MergeLine(lines[i], width, pageNo).Some? ==>
              MergeLine(lines[i], width, pageNo).value in ExtractLines(lines, width, pageNo)
  {
    if |lines| > 0 {
      ExtractLinesExact(lines[1..], width, pageNo);
      assert forall i :: 1 <= i < |lines| ==> lines[i] == lines[1..][i - 1];
    }
  }

  /** The merge of line `i` of block `b`, or None when there is no such
      line, the block carries no lines, or the line is dropped. */
  function LineAt(blocks: seq<Block>, width: real, pageNo: int, b: int, i: int): Option<LineRecord> {
    if 0 <= b < |blocks| && blocks[b].TextBlock? && 0 <= i < |blocks[b].lines|
    then MergeLine(blocks[b].lines[i], width, pageNo)
    else None
  }

  /** The kept lines of a sequence of blocks; blocks without lines add
      nothing. */
  function ExtractBlocks(blocks: seq<Block>, width: real, pageNo: int): (r: seq<LineRecord>)
    ensures forall k :: 0 <= k < |r| ==> r[k].page == pageNo && |r[k].text| >= MinLineLength
  {
    if |blocks| == 0 then []
    else
      var here := if blocks[0].TextBlock? then ExtractLines(blocks[0].lines, width, pageNo) else [];
      here + ExtractBlocks(blocks[1..], width, pageNo)
  }

  /** A page keeps exactly the lines of its text blocks that survive merging. */
  lemma {:induction false} ExtractBlocksExact(blocks: seq<Block>, width: real, pageNo: int)
    ensures forall rec :: rec in ExtractBlocks(blocks, width, pageNo) ==>
              exists b, i :: LineAt(blocks, width, pageNo, b, i) == Some(rec)
    ensures forall b, i :: LineAt(blocks, width, pageNo, b, i).Some? ==>
              LineAt(blocks, width, pageNo, b, i).value in ExtractBlocks(blocks, width, pageNo)
  {
    if |blocks| > 0 {
      var rest := blocks[1..];
      ExtractBlocksExact(rest, width, pageNo);
      var here := if blocks[0].TextBlock? then ExtractLines(blocks[0].lines, width, pageNo) else [];
      assert ExtractBlocks(blocks, width, pageNo) == here + ExtractBlocks(rest, width, pageNo);
      assert forall b, i :: 1 <= b ==>
        LineAt(blocks, width, pageNo, b, i) == LineAt(rest, width, pageNo, b - 1, i);
      if blocks[0].TextBlock? {
        ExtractLinesExact(blocks[0].lines, width, pageNo);
        assert forall i :: (LineAt(blocks, width, pageNo, 0, i)
          == if 0 <= i < |blocks[0].lines| then MergeLine(blocks[0].lines[i], width, pageNo) else None);
      }
      forall rec | rec in ExtractBlocks(blocks, width, pageNo)
        ensures exists b, i :: LineAt(blocks, width, pageNo, b, i) == Some(rec)
      {
        if rec in here {
          var i :| 0 <= i < |blocks[0].lines| && MergeLine(blocks[0].lines[i], width, pageNo) == Some(rec);
          assert LineAt(blocks, width, pageNo, 0, i) == Some(rec);
        } else {
          var b, i :| LineAt(rest, width, pageNo, b, i) == Some(rec);
          assert LineAt(blocks, width, pageNo, b + 1, i) == Some(rec);
        }
      }
    }
  }

  /** The kept lines of one page, numbered `pageNo`. */
  function ExtractPage(page: Page, pageNo: int): seq<LineRecord> {
    ExtractBlocks(page.blocks, page.width, pageNo)
  }

  /** The kept lines of consecutive pages, the first numbered `first`. */
  function ExtractPages(pages: seq<Page>, first: int): seq<LineRecord> {
    if |pages| == 0 then []
    else ExtractPage(pages[0], first) + ExtractPages(pages[1..], first + 1)
  }

  /** Page numbers stay within the range of the pages and never decrease,
      and every kept line has at least two characters. */
  lemma {:induction false} ExtractPagesOrdered(pages: seq<Page>, first: int)
    ensures forall k :: 0 <= k < |ExtractPages(pages, first)| ==>
              first <= ExtractPages(pages, first)[k].page < first + |pages|
              && |ExtractPages(pages, first)[k].text| >= MinLineLength
    ensures forall i, j :: 0 <= i < j < |ExtractPages(pages, first)| ==>
              ExtractPages(pages, first)[i].page <= ExtractPages(pages, first)[j].page
  {
    if |pages| > 0 {
      ExtractPagesOrdered(pages[1..], first + 1);
      var here := ExtractPage(pages[0], first);
      var rest := ExtractPages(pages[1..], first + 1);
      var r := here + rest;
      assert r == ExtractPages(pages, first);
      forall k | 0 <= k < |r|
        ensures first <= r[k].page < first + |pages| && |r[k].text| >= MinLineLength
      {
        if k < |here| {
          assert r[k] == here[k];
        } else {
          assert r[k] == rest[k - |here|];
        }
      }
      forall i, j | 0 <= i < j < |r|
        ensures r[i].page <= r[j].page
      {
        if j < |here| {
          assert r[i] == here[i] && r[j] == here[j];
        } else if i < |here| {
          assert r[i] == here[i] && r[j] == rest[j - |here|];
        } else {
          assert r[i] == rest[i - |here|] && r[j] == rest[j - |here|];
        }
      }
    }
  }

  /** All kept lines of a document, pages numbered from 1. */
  function ExtractDocument(doc: Document): seq<LineRecord> {
    ExtractPages(doc, 1)
  }

  /** The merge of line `i` of block `b` of page `p`, numbered `first + p`. */
  function PageLineAt(pages: seq<Page>, first: int, p: int, b: int, i: int): Option<LineRecord> {
    if 0 <= p < |pages| then LineAt(pages[p].blocks, pages[p].width, first + p, b, i) else None
  }

  /** Every line of every page that survives merging is kept, with its
      page number. */
  lemma {:induction false} ExtractPagesComplete(pages: seq<Page>, first: int)
    ensures forall p, b, i :: PageLineAt(pages, first, p, b, i).Some? ==>
              PageLineAt(pages, first, p, b, i).value in ExtractPages(pages, first)
  {
    if |pages| > 0 {
      var rest := pages[1..];
      ExtractPagesComplete(rest, first + 1);
      ExtractBlocksExact(pages[0].blocks, pages[0].width, first);
      assert forall p, b, i :: 1 <= p ==>
        PageLineAt(pages, first, p, b, i) == PageLineAt(rest, first + 1, p - 1, b, i);
    }
  }

  /** Every kept line is the merge of some line of some page. */
  lemma {:induction false} ExtractPagesSound(pages: seq<Page>, first: int)
    ensures forall rec :: rec in ExtractPages(pages, first) ==>
              exists p, b, i :: PageLineAt(pages, first, p, b, i) == Some(rec)
  {
    if |pages| > 0 {
      var rest := pages[1..];
      ExtractPagesSound(rest, first + 1);
      ExtractBlocksExact(pages[0].blocks, pages[0].width, first);
      var here := ExtractPage(pages[0], first);
      forall rec | rec in ExtractPages(pages, first)
        ensures exists p, b, i :: PageLineAt(pages, first, p, b, i) == Some(rec)
      {
        if rec in here {
          var b, i :| LineAt(pages[0].blocks, pages[0].width, first, b, i) == Some(rec);
          assert PageLineAt(pages, first, 0, b, i) == Some(rec);
        } else {
          var p, b, i :| PageLineAt(rest, first + 1, p, b, i) == Some(rec);
          assert PageLineAt(pages, first, p + 1, b, i) == Some(rec);
        }
      }
    }
  }

  /** For a whole document: a line is kept exactly when it survives merging,
      and it carries its 1-based page number. */
  lemma ExtractDocumentExact(doc: Document)
    ensures forall p, b, i :: PageLineAt(doc, 1, p, b, i).Some? ==>
              PageLineAt(doc, 1, p, b, i).value in ExtractDocument(doc)
              && PageLineAt(doc, 1, p, b, i).value.page == p + 1
    ensures forall rec :: rec in ExtractDocument(doc) ==>
              exists p, b, i :: PageLineAt(doc, 1, p, b, i) == Some(rec)
  {
    ExtractPagesComplete(doc, 1);
    ExtractPagesSound(doc, 1);
  }

  // ---------------------------------------------------------------------
  // the order in which the loops visit lines

  /** One structural line as the loops reach it, with its page's width and
      1-based number. */
  datatype Visit = Visit(line: TextLine, width: real, pageNo: int)

  function MergeVisit(v: Visit): Option<LineRecord> {
    MergeLine(v.line, v.width, v.pageNo)
  }

  /** The lines of one block, in order. */
  function LineVisits(lines: seq<TextLine>, width: real, pageNo: int): seq<Visit> {
    seq(|lines|, i requires 0 <= i < |lines| => Visit(lines[i], width, pageNo))
  }

  /** The lines of a page's text blocks, block by block. */
  function BlockVisits(blocks: seq<Block>, width: real, pageNo: int): seq<Visit> {
    if |blocks| == 0 then []
    else
      (if blocks[0].TextBlock? then LineVisits(blocks[0].lines, width, pageNo) else [])
      + BlockVisits(blocks[1..], width, pageNo)
  }

  /** The lines of consecutive pages, page by page, the first numbered `first`. */
  function PageVisits(pages: seq<Page>, first: int): seq<Visit> {
    if |pages| == 0 then []
    else BlockVisits(pages[0].blocks, pages[0].width, first) + PageVisits(pages[1..], first + 1)
  }

  /** Every line of a document, in the order the page, block and line loops
      reach it. */
  function Visits(doc: Document): seq<Visit> {
    PageVisits(doc, 1)
  }

  /** The merges of the visited lines that survive, in visiting order. */
  function Survivors(vs: seq<Visit>): seq<LineRecord> {
    if |vs| == 0 then []
    else (if MergeVisit(vs[0]).Some? then [MergeVisit(vs[0]).value] else []) + Survivors(vs[1..])
  }

  /** The positions, from `lo` on, of the visited lines that survive: in
      increasing order, each surviving, and none left out. */
  function KeptFrom(vs: seq<Visit>, lo: nat): (idx: seq<nat>)
    requires lo <= |vs|
    ensures forall k :: 0 <= k < |idx| ==> lo <= idx[k] < |vs| && MergeVisit(vs[idx[k]]).Some?
    ensures forall k, l :: 0 <= k < l < |idx| ==> idx[k] < idx[l]
    ensures forall i :: lo <= i < |vs| && MergeVisit(vs[i]).Some? ==> i in idx
    decreases |vs| - lo
  {
    if lo == |vs| then []
    else
      var rest := KeptFrom(vs, lo + 1);
      if MergeVisit(vs[lo]).Some? then [lo] + rest else rest
  }

  /** The merged records of the visited lines at positions `idx`, in that order. */
  function Select(vs: seq<Visit>, idx: seq<nat>): seq<LineRecord>
    requires forall k :: 0 <= k < |idx| ==> idx[k] < |vs| && MergeVisit(vs[idx[k]]).Some?
  {
    seq(|idx|, k requires 0 <= k < |idx| && idx[k] < |vs| && MergeVisit(vs[idx[k]]).Some? =>
      MergeVisit(vs[idx[k]]).value)
  }

  lemma SelectCons(vs: seq<Visit>, i: nat, idx: seq<nat>)
    requires i < |vs| && MergeVisit(vs[i]).Some?
    requires forall k :: 0 <= k < |idx| ==> idx[k] < |vs| && MergeVisit(vs[idx[k]]).Some?
    ensures Select(vs, [i] + idx) == [MergeVisit(vs[i]).value] + Select(vs, idx)
  {
    var all := [i] + idx;
    assert forall k :: 0 < k < |all| ==> all[k] == idx[k - 1];
  }

  lemma {:induction false} SurvivorsFrom(vs: seq<Visit>, lo: nat)
    requires lo <= |vs|
    ensures Survivors(vs[lo..]) == Select(vs, KeptFrom(vs, lo))
    decreases |vs| - lo
  {
    if lo < |vs| {
      SurvivorsFrom(vs, lo + 1);
      var tail := vs[lo..];
      assert tail[0] == vs[lo] && tail[1..] == vs[lo + 1..];
      var rest := KeptFrom(vs, lo + 1);
      if MergeVisit(vs[lo]).Some? {
        SelectCons(vs, lo, rest);
      }
    }
  }

  /** The survivors are the merges of the surviving visited lines, each once,
      in visiting order. */
  lemma SurvivorsAreSelection(vs: seq<Visit>)
    ensures Survivors(vs) == Select(vs, KeptFrom(vs, 0))
  {
    SurvivorsFrom(vs, 0);
    assert vs[0..] == vs;
  }

  /** Filtering a concatenation filters each part. */
  lemma {:induction false} SurvivorsAppend(a: seq<Visit>, b: seq<Visit>)
    ensures Survivors(a + b) == Survivors(a) + Survivors(b)
  {
    if |a| > 0 {
      SurvivorsAppend(a[1..], b);
      assert (a + b)[0] == a[0] && (a + b)[1..] == a[1..] + b;
      var h := if MergeVisit(a[0]).Some? then [MergeVisit(a[0]).value] else [];
      assert h + (Survivors(a[1..]) + Survivors(b)) == h + Survivors(a[1..]) + Survivors(b);
    } else {
      assert a + b == b;
    }
  }

  /** A block's kept lines are the survivors of its lines, in order. */
  lemma {:induction false} ExtractLinesInOrder(lines: seq<TextLine>, width: real, pageNo: int)
    ensures ExtractLines(lines, width, pageNo) == Survivors(LineVisits(lines, width, pageNo))
  {
    if |lines| > 0 {
      ExtractLinesInOrder(lines[1..], width, pageNo);
      var vs := LineVisits(lines, width, pageNo);
      assert vs[0] == Visit(lines[0], width, pageNo);
      assert vs[1..] == LineVisits(lines[1..], width, pageNo);
    }
  }

  /** A page's kept lines are the survivors of its text blocks' lines, block
      by block. */
  lemma {:induction false} ExtractBlocksInOrder(blocks: seq<Block>, width: real, pageNo: int)
    ensures ExtractBlocks(blocks, width, pageNo) == Survivors(BlockVisits(blocks, width, pageNo))
  {
    if |blocks| > 0 {
      ExtractBlocksInOrder(blocks[1..], width, pageNo);
      var here := if blocks[0].TextBlock? then LineVisits(blocks[0].lines, width, pageNo) else [];
      if blocks[0].TextBlock? {
        ExtractLinesInOrder(blocks[0].lines, width, pageNo);
      }
      SurvivorsAppend(here, BlockVisits(blocks[1..], width, pageNo));
    }
  }

  /** The kept lines of consecutive pages are the survivors of their lines,
      page by page. */
  lemma {:induction false} ExtractPagesInOrder(pages: seq<Page>, first: int)
    ensures ExtractPages(pages, first) == Survivors(PageVisits(pages, first))
  {
    if |pages| > 0 {
      ExtractPagesInOrder(pages[1..], first + 1);
      ExtractBlocksInOrder(pages[0].blocks, pages[0].width, first);
      SurvivorsAppend(BlockVisits(pages[0].blocks, pages[0].width, first), PageVisits(pages[1..], first + 1));
    }
  }

  /** A document's kept lines are the merges of exactly the surviving lines,
      each once, in page, block and line order. */
  lemma ExtractDocumentInOrder(doc: Document)
    ensures ExtractDocument(doc) == Select(Visits(doc), KeptFrom(Visits(doc), 0))
  {
    ExtractPagesInOrder(doc, 1);
    SurvivorsAreSelection(Visits(doc));
  }
}
