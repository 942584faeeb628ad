/**
 The document pipeline: segment every page into kept lines, build one
 feature row and one metadata record per kept line, ask the classifier for
 a label per row, and assemble the outline.  The title is the file's base
 name.
 */
module Pipeline {
  import opened Common
  import opened Strings
  import opened Features
  import opened Segmenter
  import opened Outline

  /** The trained classifier together with its label decoder, seen from
      outside: the column names it was fitted on and the function from a
      frame of rows to decoded labels. */
  datatype Classifier = Classifier(columns: seq<string>, predict: seq<seq<real>> -> seq<string>)

  /** Building the frame fails when the classifier's column names do not
      match the width of the rows. */
  datatype PipelineError = ColumnMismatch(columnsGiven: nat, rowWidth: nat)

  datatype DocumentResult = DocumentResult(title: string, outline: seq<OutlineEntry>)

  /** The two lists the walk over the document fills side by side. */
  datatype Batch = Batch(features: seq<FeatureVector>, metas: seq<LineMeta>)

  const EmptyBatch: Batch := Batch([], [])

  function FeaturesOf(rec: LineRecord): FeatureVector {
    BuildFeatureVector(rec.text, rec.size, rec.bold, rec.center, rec.italic, rec.page, rec.x)
  }

  function MetaOf(rec: LineRecord): LineMeta {
    LineMeta(rec.text, rec.page, rec.size)
  }

  /** One kept line appends one feature row and one metadata record. */
  function Emit(b: Batch, rec: LineRecord): Batch {
    Batch(b.features + [FeaturesOf(rec)], b.metas + [MetaOf(rec)])
  }

  /** Emitting the kept lines in order: one row and one record per line. */
  function Collect(b: Batch, lines: seq<LineRecord>): (r: Batch)
    ensures |r.features| == |b.features| + |lines| && |r.metas| == |b.metas| + |lines|
    decreases |lines|
  {
    if |lines| == 0 then b else Collect(Emit(b, lines[0]), lines[1..])
  }

  /** Reference definitions of the two lists, one entry per line. */
  function RowsOf(lines: seq<LineRecord>): seq<FeatureVector> {
    if |lines| == 0 then [] else [FeaturesOf(lines[0])] + RowsOf(lines[1..])
  }

  function MetasOf(lines: seq<LineRecord>): seq<LineMeta> {
    if |lines| == 0 then [] else [MetaOf(lines[0])] + MetasOf(lines[1..])
  }

  /** Row i and record i of the reference lists describe line i. */
  lemma {:induction false} ReferenceListsAligned(lines: seq<LineRecord>)
    ensures |RowsOf(lines)| == |MetasOf(lines)| == |lines|
    ensures forall i :: 0 <= i < |lines| ==> RowsOf(lines)[i] == FeaturesOf(lines[i])
    ensures forall i :: 0 <= i < |lines| ==> MetasOf(lines)[i] == MetaOf(lines[i])
  {
    if |lines| > 0 {
      ReferenceListsAligned(lines[1..]);
      assert forall i :: 1 <= i < |lines| ==> lines[i] == lines[1..][i - 1];
    }
  }

  lemma AppendCons<T>(a: seq<T>, x: T, r: seq<T>)
    ensures a + [x] + r == a + ([x] + r)
  {
  }

  lemma AppendNothing<T>(a: seq<T>)
    ensures a + [] == a
  {
  }

  /** Collecting appends one row and one record per line, in line order, to
      what was there before. */
  lemma {:induction false} CollectAppends(b: Batch, lines: seq<LineRecord>)
    ensures Collect(b, lines) == Batch(b.features + RowsOf(lines), b.metas + MetasOf(lines))
    decreases |lines|
  {
    if |lines| > 0 {
      var next := Emit(b, lines[0]);
      CollectAppends(next, lines[1..]);
      AppendCons(b.features, FeaturesOf(lines[0]), RowsOf(lines[1..]));
      AppendCons(b.metas, MetaOf(lines[0]), MetasOf(lines[1..]));
    } else {
      AppendNothing(b.features);
      AppendNothing(b.metas);
    }
  }

  lemma CollectFromEmpty(lines: seq<LineRecord>)
    ensures Collect(EmptyBatch, lines) == Batch(RowsOf(lines), MetasOf(lines))
  {
    CollectAppends(EmptyBatch, lines);
    assert [] + RowsOf(lines) == RowsOf(lines);
    assert [] + MetasOf(lines) == MetasOf(lines);
  }

  /** The two lists collected from `lines`: row i and record i both
      describe line i. */
  function BatchOf(lines: seq<LineRecord>): (b: Batch)
    ensures |b.features| == |b.metas| == |lines|
    ensures forall i {:trigger b.features[i]} :: 0 <= i < |lines| ==> b.features[i] == FeaturesOf(lines[i])
    ensures forall i {:trigger b.metas[i]} :: 0 <= i < |lines| ==> b.metas[i] == MetaOf(lines[i])
  {
    CollectFromEmpty(lines);
    ReferenceListsAligned(lines);
    Collect(EmptyBatch, lines)
  }

  /** The features and metadata of a document's kept lines. */
  function DocumentBatch(doc: Document): Batch {
    BatchOf(ExtractDocument(doc))
  }

  /** The frame handed to the classifier: one row per feature vector. */
  function Frame(features: seq<FeatureVector>): (rows: seq<seq<real>>)
    ensures |rows| == |features|
    ensures forall i :: 0 <= i < |rows| ==> |rows[i]| == ColumnCount
  {
    seq(|features|, i requires 0 <= i < |features| => Row(features[i]))
  }

  /** The labels the classifier gives to a document's kept lines. */
  function Tags(doc: Document, clf: Classifier): seq<string> {
    clf.predict(Frame(DocumentBatch(doc).features))
  }

  /** `analyze_document`.  A document with no kept line yields an empty
      outline without consulting the classifier, so it cannot fail;
      otherwise building the frame fails exactly when the classifier's
      column list is not 15 long.  The title is always the base name. */
  function AnalyzeDocument(path: string, doc: Document, clf: Classifier): (r: Result<DocumentResult, PipelineError>)
    ensures r.Success? ==> r.value.title == Basename(path)
    ensures r.Failure? <==> |ExtractDocument(doc)| > 0 && |clf.columns| != ColumnCount
    ensures |ExtractDocument(doc)| == 0 ==> r == Success(DocumentResult(Basename(path), []))
  {
    var batch := DocumentBatch(doc);
    var title := Basename(path);
    if |batch.features| == 0 then Success(DocumentResult(title, []))
    else if |clf.columns| != ColumnCount then Failure(ColumnMismatch(|clf.columns|, ColumnCount))
    else Success(DocumentResult(title, Assemble(Tags(doc, clf), batch.metas)))
  }

  /** With no kept line the result does not depend on the classifier. */
  lemma EmptyDocumentIgnoresClassifier(path: string, doc: Document, c1: Classifier, c2: Classifier)
    requires ExtractDocument(doc) == []
    ensures AnalyzeDocument(path, doc, c1) == AnalyzeDocument(path, doc, c2)
  {
  }

  /** Every entry assembled from labelled lines is one of those lines with
      a font of at least 14 points and a label other than "None" as its
      level, carrying the line's own text and page; properties every line
      has carry over to the entries. */
  lemma AssembleFromLines(tags: seq<string>, lines: seq<LineRecord>, lo: int, hi: int)
    requires forall k :: 0 <= k < |lines| ==> |lines[k].text| >= MinLineLength && lo <= lines[k].page <= hi
    ensures forall e :: e in Assemble(tags, BatchOf(lines).metas) ==>
              exists i :: 0 <= i < |lines| && i < |tags|
                && lines[i].size >= SizeLimit && |lines[i].text| >= MinLineLength
                && e.level == tags[i] && e.level != NoneLabel
                && e.text == lines[i].text && e.page == lines[i].page
    ensures forall e :: e in Assemble(tags, BatchOf(lines).metas) ==> lo <= e.page <= hi
  {
    var metas := BatchOf(lines).metas;
    OutlineSound(tags, metas);
    forall e | e in Assemble(tags, metas)
      ensures exists i :: 0 <= i < |lines| && i < |tags|
                && lines[i].size >= SizeLimit && |lines[i].text| >= MinLineLength
                && e.level == tags[i] && e.level != NoneLabel
                && e.text == lines[i].text && e.page == lines[i].page
      ensures lo <= e.page <= hi
    {
      var i :| 0 <= i < PairCount(tags, metas)
               && metas[i].fontSize >= SizeLimit && tags[i] != NoneLabel
               && e == OutlineEntry(tags[i], metas[i].text, metas[i].page);
      assert metas[i] == MetaOf(lines[i]);
    }
  }

  /** Every kept line has at least two characters and a page number between
      1 and the page count. */
  lemma DocumentLinesBounded(doc: Document)
    ensures forall k :: 0 <= k < |ExtractDocument(doc)| ==>
              |ExtractDocument(doc)[k].text| >= MinLineLength && 1 <= ExtractDocument(doc)[k].page <= |doc|
  {
    ExtractPagesOrdered(doc, 1);
  }

  /** A successful result's outline is the one assembled from the labels
      and the kept lines' metadata (empty when there are no kept lines). */
  lemma SuccessOutline(path: string, doc: Document, clf: Classifier)
    ensures AnalyzeDocument(path, doc, clf).Success? ==>
            AnalyzeDocument(path, doc, clf).value.outline
            == Assemble(Tags(doc, clf), BatchOf(ExtractDocument(doc)).metas)
  {
    var lines := ExtractDocument(doc);
    if |lines| == 0 {
      assert |BatchOf(lines).metas| == 0;
    }
  }

  /** On success the outline is the selection, in line order, of exactly
      the kept lines' metadata records whose size and label qualify. */
  lemma OutlineIsDocumentSelection(path: string, doc: Document, clf: Classifier)
    ensures AnalyzeDocument(path, doc, clf).Success? ==>
            AnalyzeDocument(path, doc, clf).value.outline
            == Project(Tags(doc, clf), MetasOf(ExtractDocument(doc)),
                       AcceptedIndices(Tags(doc, clf), MetasOf(ExtractDocument(doc))))
  {
    var lines := ExtractDocument(doc);
    SuccessOutline(path, doc, clf);
    CollectFromEmpty(lines);
    assert BatchOf(lines).metas == MetasOf(lines);
    OutlineIsSelection(Tags(doc, clf), MetasOf(lines));
  }

  /** Every outline entry is a kept line of the document with a font of at
      least 14 points, at least two characters of text, a label other than
      "None" as its level, and the line's own text and page. */
  lemma OutlineFromKeptLines(path: string, doc: Document, clf: Classifier)
    ensures AnalyzeDocument(path, doc, clf).Success? ==>
            forall e :: e in AnalyzeDocument(path, doc, clf).value.outline ==>
              exists i :: 0 <= i < |ExtractDocument(doc)| && i < |Tags(doc, clf)|
                && ExtractDocument(doc)[i].size >= SizeLimit
                && |ExtractDocument(doc)[i].text| >= MinLineLength
                && e.level == Tags(doc, clf)[i] && e.level != NoneLabel
                && e.text == ExtractDocument(doc)[i].text
                && e.page == ExtractDocument(doc)[i].page
  {
    SuccessOutline(path, doc, clf);
    DocumentLinesBounded(doc);
    AssembleFromLines(Tags(doc, clf), ExtractDocument(doc), 1, |doc|);
  }

  /** When the classifier returns one label per row, every kept line of at
      least 14 points whose label is not "None" is in the outline. */
  lemma OutlineHasEveryHeading(path: string, doc: Document, clf: Classifier)
    requires |clf.columns| == ColumnCount
    requires |Tags(doc, clf)| == |ExtractDocument(doc)|
    ensures forall i :: (0 <= i < |ExtractDocument(doc)|
                         && ExtractDocument(doc)[i].size >= SizeLimit && Tags(doc, clf)[i] != NoneLabel) ==>
              OutlineEntry(Tags(doc, clf)[i], ExtractDocument(doc)[i].text, ExtractDocument(doc)[i].page)
                in AnalyzeDocument(path, doc, clf).value.outline
  {
    var lines := ExtractDocument(doc);
    if |lines| > 0 {
      OutlineComplete(Tags(doc, clf), DocumentBatch(doc).metas);
    }
  }

  /** Entries assembled from lines in page order are in page order. */
  lemma AssembleInPageOrder(tags: seq<string>, lines: seq<LineRecord>)
    requires forall i, j :: 0 <= i < j < |lines| ==> lines[i].page <= lines[j].page
    ensures forall k, l :: 0 <= k < l < |Assemble(tags, BatchOf(lines).metas)| ==>
              Assemble(tags, BatchOf(lines).metas)[k].page <= Assemble(tags, BatchOf(lines).metas)[l].page
  {
    var metas := BatchOf(lines).metas;
    assert forall i :: 0 <= i < |metas| ==> metas[i].page == lines[i].page;
    OutlinePagesSorted(tags, metas);
  }

  /** Outline entries appear in page order. */
  lemma OutlineInPageOrder(path: string, doc: Document, clf: Classifier)
    ensures AnalyzeDocument(path, doc, clf).Success? ==>
            forall k, l :: 0 <= k < l < |AnalyzeDocument(path, doc, clf).value.outline| ==>
              AnalyzeDocument(path, doc, clf).value.outline[k].page
              <= AnalyzeDocument(path, doc, clf).value.outline[l].page
  {
    var r := AnalyzeDocument(path, doc, clf);
    if r.Success? {
      var lines := ExtractDocument(doc);
      SuccessOutline(path, doc, clf);
      ExtractPagesOrdered(doc, 1);
      AssembleInPageOrder(Tags(doc, clf), lines);
      assert r.value.outline == Assemble(Tags(doc, clf), BatchOf(lines).metas);
    }
  }

  /** Outline pages are numbered from 1 up to the page count. */
  lemma OutlinePagesInRange(path: string, doc: Document, clf: Classifier)
    ensures AnalyzeDocument(path, doc, clf).Success? ==>
            forall e :: e in AnalyzeDocument(path, doc, clf).value.outline ==> 1 <= e.page <= |doc|
  {
    SuccessOutline(path, doc, clf);
    DocumentLinesBounded(doc);
    AssembleFromLines(Tags(doc, clf), ExtractDocument(doc), 1, |doc|);
  }

  /** A kept line's text is already stripped. */
  lemma KeptLinesAreStripped(doc: Document)
    ensures forall i :: 0 <= i < |ExtractDocument(doc)| ==>
              Strip(ExtractDocument(doc)[i].text) == ExtractDocument(doc)[i].text
  {
    var lines := ExtractDocument(doc);
    ExtractDocumentExact(doc);
    forall i | 0 <= i < |lines|
      ensures Strip(lines[i].text) == lines[i].text
    {
      var rec := lines[i];
      var p, b, j :| PageLineAt(doc, 1, p, b, j) == Some(rec);
      var line := doc[p].blocks[b].lines[j];
      MergeLineSpec(line, doc[p].width, 1 + p);
      StripIdempotent(Joined(line.spans));
    }
  }

  /** Because kept text is already stripped, the feature row of every kept
      line has equal length and trimmed length. */
  lemma KeptRowsAreTrimmed(doc: Document)
    ensures forall i :: 0 <= i < |DocumentBatch(doc).features| ==>
              DocumentBatch(doc).features[i].trimmed == DocumentBatch(doc).features[i].length
  {
    KeptLinesAreStripped(doc);
  }

  /** The feature row and the metadata record of a line agree on its page,
      font size and text length. */
  lemma RowsMatchMetadata(doc: Document)
    ensures forall i :: 0 <= i < |DocumentBatch(doc).features| ==>
              var fv, meta := DocumentBatch(doc).features[i], DocumentBatch(doc).metas[i];
              fv.page == meta.page && fv.size == meta.fontSize && fv.length == |meta.text|
  {
  }
}
