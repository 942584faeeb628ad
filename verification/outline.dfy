/**
 The outline assembler: walks the classifier's tags and the kept lines'
 metadata side by side and keeps, in order, the lines that are set in at
 least 14 points and whose tag is not "None".
 */
module Outline {

  /** Smallest font size, in points, a heading may have. */
  const SizeLimit: real := 14.0

  /** The tag the classifier gives to lines that are not headings. */
  const NoneLabel: string := "None"

  /** What is remembered of a kept line for the outline. */
  datatype LineMeta = LineMeta(text: string, page: int, fontSize: real)

  /** One heading of the outline: its level tag, text and 1-based page. */
  datatype OutlineEntry = OutlineEntry(level: string, text: string, page: int)

  /** Whether a labelled line becomes a heading. */
  predicate Accepted(tag: string, meta: LineMeta) {
    meta.fontSize >= SizeLimit && tag != NoneLabel
  }

  function EntryOf(tag: string, meta: LineMeta): OutlineEntry {
    OutlineEntry(tag, meta.text, meta.page)
  }

  /** Number of pairs `zip(tags, metas)` yields: the length of the shorter
      list. */
  function PairCount(tags: seq<string>, metas: seq<LineMeta>): (n: nat)
    ensures n <= |tags| && n <= |metas|
    ensures n == |tags| || n == |metas|
  {
    if |tags| < |metas| then |tags| else |metas|
  }

  /** The loop over `zip(tags, metas)`: a line under the size limit is
      skipped before its tag is looked at; otherwise it is kept unless its
      tag is "None". */
  function Assemble(tags: seq<string>, metas: seq<LineMeta>): (r: seq<OutlineEntry>)
    ensures |r| <= PairCount(tags, metas)
  {
    if |tags| == 0 || |metas| == 0 then []
    else
      var rest := Assemble(tags[1..], metas[1..]);
      if metas[0].fontSize < SizeLimit then rest
      else if tags[0] != NoneLabel then [EntryOf(tags[0], metas[0])] + rest
      else rest
  }

  /** The positions, from `lo` on, of the pairs that become headings: in
      increasing order, each accepted, and none accepted left out. */
  function AcceptedFrom(tags: seq<string>, metas: seq<LineMeta>, lo: nat): (idx: seq<nat>)
    requires lo <= PairCount(tags, metas)
    ensures forall k :: 0 <= k < |idx| ==>
              lo <= idx[k] < PairCount(tags, metas) && Accepted(tags[idx[k]], metas[idx[k]])
    ensures forall k, l :: 0 <= k < l < |idx| ==> idx[k] < idx[l]
    ensures forall i :: lo <= i < PairCount(tags, metas) && Accepted(tags[i], metas[i]) ==> i in idx
    decreases PairCount(tags, metas) - lo
  {
    if lo == PairCount(tags, metas) then []
    else
      var rest := AcceptedFrom(tags, metas, lo + 1);
      if Accepted(tags[lo], metas[lo]) then [lo] + rest else rest
  }

  /** All positions whose pair becomes a heading, in order. */
  function AcceptedIndices(tags: seq<string>, metas: seq<LineMeta>): seq<nat> {
    AcceptedFrom(tags, metas, 0)
  }

  /** The entries of the pairs at positions `idx`, in that order. */
  function Project(tags: seq<string>, metas: seq<LineMeta>, idx: seq<nat>): (r: seq<OutlineEntry>)
    requires forall k :: 0 <= k < |idx| ==> idx[k] < PairCount(tags, metas)
  {
    seq(|idx|, k requires 0 <= k < |idx| && idx[k] < PairCount(tags, metas) =>
      EntryOf(tags[idx[k]], metas[idx[k]]))
  }

  lemma {:induction false} AssembleFrom(tags: seq<string>, metas: seq<LineMeta>, lo: nat)
    requires lo <= PairCount(tags, metas)
    ensures Assemble(tags[lo..], metas[lo..]) == Project(tags, metas, AcceptedFrom(tags, metas, lo))
    decreases PairCount(tags, metas) - lo
  {
    var ts, ms := tags[lo..], metas[lo..];
    if lo < PairCount(tags, metas) {
      AssembleFrom(tags, metas, lo + 1);
      assert ts[1..] == tags[lo + 1..] && ms[1..] == metas[lo + 1..];
      assert ts[0] == tags[lo] && ms[0] == metas[lo];
      var tail := Assemble(ts[1..], ms[1..]);
      var rest := AcceptedFrom(tags, metas, lo + 1);
      assert tail == Project(tags, metas, rest);
      if Accepted(tags[lo], metas[lo]) {
        assert Assemble(ts, ms) == [EntryOf(tags[lo], metas[lo])] + tail;
        ProjectCons(tags, metas, lo, rest);
      } else {
        assert Assemble(ts, ms) == tail;
      }
    } else {
      assert |ts| == 0 || |ms| == 0;
    }
  }

  lemma ProjectCons(tags: seq<string>, metas: seq<LineMeta>, i: nat, idx: seq<nat>)
    requires i < PairCount(tags, metas)
    requires forall k :: 0 <= k < |idx| ==> idx[k] < PairCount(tags, metas)
    ensures Project(tags, metas, [i] + idx) == [EntryOf(tags[i], metas[i])] + Project(tags, metas, idx)
  {
    var all := [i] + idx;
    assert forall k :: 0 < k < |all| ==> all[k] == idx[k - 1];
  }

  /** The outline is exactly the entries of the accepted pairs, in input
      order: nothing is reordered, dropped or invented. */
  lemma OutlineIsSelection(tags: seq<string>, metas: seq<LineMeta>)
    ensures Assemble(tags, metas) == Project(tags, metas, AcceptedIndices(tags, metas))
  {
    AssembleFrom(tags, metas, 0);
    assert tags[0..] == tags && metas[0..] == metas;
  }

  /** Every outline entry comes from a line of at least 14 points whose tag
      is not "None", and its level, text and page are that line's. */
  lemma {:induction false} OutlineSound(tags: seq<string>, metas: seq<LineMeta>)
    ensures forall e :: e in Assemble(tags, metas) ==>
              exists i :: 0 <= i < PairCount(tags, metas)
                && metas[i].fontSize >= SizeLimit && tags[i] != NoneLabel
                && e == OutlineEntry(tags[i], metas[i].text, metas[i].page)
  {
    OutlineIsSelection(tags, metas);
    var idx := AcceptedIndices(tags, metas);
    forall e | e in Assemble(tags, metas)
      ensures exists i :: 0 <= i < PairCount(tags, metas)
                && metas[i].fontSize >= SizeLimit && tags[i] != NoneLabel
                && e == OutlineEntry(tags[i], metas[i].text, metas[i].page)
    {
      var k :| 0 <= k < |idx| && Project(tags, metas, idx)[k] == e;
      var i := idx[k];
      assert e == EntryOf(tags[i], metas[i]);
    }
  }

  /** Every line of at least 14 points whose tag is not "None" appears in
      the outline. */
  lemma {:induction false} OutlineComplete(tags: seq<string>, metas: seq<LineMeta>)
    ensures forall i :: (0 <= i < PairCount(tags, metas)
                         && metas[i].fontSize >= SizeLimit && tags[i] != NoneLabel) ==>
              OutlineEntry(tags[i], metas[i].text, metas[i].page) in Assemble(tags, metas)
  {
    OutlineIsSelection(tags, metas);
    var idx := AcceptedIndices(tags, metas);
    var r := Project(tags, metas, idx);
    forall i | 0 <= i < PairCount(tags, metas) && Accepted(tags[i], metas[i])
      ensures EntryOf(tags[i], metas[i]) in r
    {
      var k :| 0 <= k < |idx| && idx[k] == i;
      assert r[k] == EntryOf(tags[i], metas[i]);
    }
  }

  /** When the lines arrive in page order, the outline is in page order. */
  lemma OutlinePagesSorted(tags: seq<string>, metas: seq<LineMeta>)
    requires forall i, j :: 0 <= i < j < |metas| ==> metas[i].page <= metas[j].page
    ensures forall k, l :: 0 <= k < l < |Assemble(tags, metas)| ==>
              Assemble(tags, metas)[k].page <= Assemble(tags, metas)[l].page
  {
    OutlineIsSelection(tags, metas);
    var idx := AcceptedIndices(tags, metas);
    var r := Project(tags, metas, idx);
    forall k, l | 0 <= k < l < |r|
      ensures r[k].page <= r[l].page
    {
      assert r[k].page == metas[idx[k]].page && r[l].page == metas[idx[l]].page;
    }
  }
}
