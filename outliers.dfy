/**
 * Outlier contigs (`MagTaxonomy.identify_erroneous_contigs`,
 * src/tax.py:110-121): the dataset-wide plurality phylum is taken over the
 * Phylum column of the consensus table, and the contigs whose phylum differs
 * from it are reported.
 *
 * As written, line 120 indexes the Python list of phyla with the string
 * 'Phylum', which raises a TypeError on every table that gets that far.
 * `ErroneousContigsAsWritten` models that; `ErroneousContigs` is the evidently intended
 * selection of the consensus lines whose phylum is not the plurality one.
 */
module Outliers {
  import opened Wrappers
  import opened Counting
  import Selection
  import opened Consensus

  datatype OutlierError =
    | NoContigs            // `most_common(1)[0]` on the Counter of an empty column
    | ListIndexedByString  // line 120: a list indexed with 'Phylum'

  /** The Phylum column of the consensus table, as a list. */
  function Phyla(table: seq<ContigPhylum>): seq<string>
  {
    seq(|table|, i requires 0 <= i < |table| => table[i].phylum)
  }

  /** The dataset-wide plurality phylum, absent for an empty table. */
  function DatasetPhylum(table: seq<ContigPhylum>): Option<string>
  {
    MostCommon(Phyla(table))
  }

  /** Line 118-121 as written: the plurality is found, then the indexing raises. */
  function ErroneousContigsAsWritten(table: seq<ContigPhylum>): (r: Result<seq<ContigPhylum>, OutlierError>)
    ensures r.Err?
    ensures r.error == NoContigs <==> table == []
  {
    MostCommonIsPlurality(Phyla(table));
    match DatasetPhylum(table)
    case None => Err(NoContigs)
    case Some(_) => Err(ListIndexedByString)
  }

  /** The lines whose phylum is not `top`. */
  function Differing(table: seq<ContigPhylum>, top: string): seq<ContigPhylum>
  {
    Selection.Filter((line: ContigPhylum) => line.phylum != top, table)
  }

  /** The corrected outlier step: the lines whose phylum differs from the plurality. */
  function ErroneousContigs(table: seq<ContigPhylum>): (r: Result<seq<ContigPhylum>, OutlierError>)
    ensures r.Err? <==> table == []
    ensures r.Err? ==> r.error == NoContigs
    ensures r.Ok? ==> forall k :: 0 <= k < |r.value| ==>
      r.value[k] in table && r.value[k].phylum != DatasetPhylum(table).value
  {
    MostCommonIsPlurality(Phyla(table));
    match DatasetPhylum(table)
    case None => Err(NoContigs)
    case Some(top) => Ok(Differing(table, top))
  }

  /** The phylum the outlier step compares against is the plurality of the Phylum column. */
  lemma DatasetPhylumIsPlurality(table: seq<ContigPhylum>)
    requires table != []
    ensures DatasetPhylum(table).Some? && IsPlurality(Phyla(table), DatasetPhylum(table).value)
  {
    MostCommonIsPlurality(Phyla(table));
  }

  /**
   * The outliers are exactly the lines whose phylum differs from the
   * plurality, in table order: the result is the table read at an
   * increasing sequence of positions, and those are all the positions of
   * differing lines.
   */
  lemma OutliersAreExactlyDiffering(table: seq<ContigPhylum>) returns (idx: seq<nat>)
    requires table != []
    ensures ErroneousContigs(table).Ok?
    ensures |idx| == |ErroneousContigs(table).value| && Selection.Increasing(idx)
    ensures forall k :: 0 <= k < |idx| ==> idx[k] < |table| && ErroneousContigs(table).value[k] == table[idx[k]]
    ensures forall i :: 0 <= i < |table| ==>
      (table[i].phylum != DatasetPhylum(table).value <==> i in idx)
  {
    MostCommonIsPlurality(Phyla(table));
    var top := DatasetPhylum(table).value;
    idx := Selection.FilterPositions((line: ContigPhylum) => line.phylum != top, table);
  }

  /** When every contig has the same phylum there are no outliers. */
  lemma UniformTableHasNoOutliers(table: seq<ContigPhylum>, p: string)
    requires table != []
    requires forall i :: 0 <= i < |table| ==> table[i].phylum == p
    ensures ErroneousContigs(table) == Ok([])
  {
    MostCommonIsPlurality(Phyla(table));
    var top := DatasetPhylum(table).value;
    assert Phyla(table)[0] == p;
    var j :| 0 <= j < |Phyla(table)| && Phyla(table)[j] == top;
    assert top == p;
    Selection.FilterNone((line: ContigPhylum) => line.phylum != top, table);
  }

  /** The lines differing from `top` and the votes for `top` together make up the table. */
  lemma {:induction false} DifferingCount(table: seq<ContigPhylum>, top: string)
    ensures |Differing(table, top)| + Count(Phyla(table), top) == |table|
  {
    if table != [] {
      var n := |table| - 1;
      DifferingCount(table[..n], top);
      assert Phyla(table)[..n] == Phyla(table[..n]);
    }
  }

  /** The number of outliers is the table size less the count of the plurality phylum. */
  lemma OutlierCount(table: seq<ContigPhylum>)
    requires table != []
    ensures ErroneousContigs(table).Ok?
    ensures |ErroneousContigs(table).value| == |table| - Count(Phyla(table), DatasetPhylum(table).value)
  {
    MostCommonIsPlurality(Phyla(table));
    DifferingCount(table, DatasetPhylum(table).value);
  }

  /** On any non-empty table the source raises where the intended step succeeds. */
  lemma AsWrittenRaisesWhereIntendedSucceeds(table: seq<ContigPhylum>)
    requires table != []
    ensures ErroneousContigsAsWritten(table) == Err(ListIndexedByString)
    ensures ErroneousContigs(table).Ok?
  {
  }
}
