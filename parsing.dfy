/**
 * Row cleaning (`MagTaxonomy.parse_contig_taxonomy`, src/tax.py:70-84),
 * applied to the rows of the MMseqs2 taxonomy table held in memory.
 *
 * Each raw row has the five columns Contig, Acc, Cat, LCA and Full Tax. The
 * lineage in Full Tax is split on ';' into as many columns as the longest
 * lineage of the table has, shorter lineages padded with missing cells; Acc,
 * Cat and Full Tax are dropped; the query ID in Contig is split at its last
 * '_' into Contig Name and ORF; the columns at positions 10 to 35 of the
 * resulting row are dropped; and rows whose LCA is "unclassified" go.
 */
module Parsing {
  import opened Wrappers
  import opened Text
  import Selection

  /** One line of the taxonomy table; `contig` is the query ID `<contig name>_<ORF>`. */
  datatype RawRow = RawRow(contig: string, acc: string, cat: string, lca: string, fullTax: string)

  /**
   * A cleaned row: the LCA, the lineage columns that survive the positional
   * drop (`None` where a lineage was shorter than the widest one), the
   * contig name and the ORF (`None` when the query ID holds no '_').
   */
  datatype Row = Row(lca: string, tokens: seq<Option<string>>, contigName: string, orf: Option<string>)

  const Unclassified: string := "unclassified"
  const LineageSeparator: char := ';'
  const OrfSeparator: char := '_'

  /**
   * Line 82 drops the columns at positions DropFrom up to, not including,
   * DropTo of the row laid out as LCA (position 0) followed by the lineage
   * columns (token i at position i + 1).
   */
  const DropFrom: nat := 10
  const DropTo: nat := 36

  function Lineage(r: RawRow): seq<string>
  {
    Split(r.fullTax, LineageSeparator)
  }

  /** The number of lineage columns the split creates: the longest lineage of the table. */
  function LineageWidth(raw: seq<RawRow>): (w: nat)
    ensures forall i :: 0 <= i < |raw| ==> |Lineage(raw[i])| <= w
    ensures raw != [] ==> exists i :: 0 <= i < |raw| && |Lineage(raw[i])| == w
    ensures raw == [] ==> w == 0
  {
    if raw == [] then 0
    else
      var n := |raw| - 1;
      var front := LineageWidth(raw[..n]);
      assert forall i :: 0 <= i < n ==> raw[..n][i] == raw[i];
      if |Lineage(raw[n])| > front then |Lineage(raw[n])| else front
  }

  /** Lineage column `i` of a row whose lineage split into `parts`. */
  function TokenCell(parts: seq<string>, i: nat): Option<string>
  {
    if i < |parts| then Some(parts[i]) else None
  }

  /** The lineage columns of one row, padded to the width of the table. */
  function Padded(parts: seq<string>, width: nat): seq<Option<string>>
  {
    seq(width, i requires 0 <= i < width => TokenCell(parts, i))
  }

  /** Whether lineage column `i` (row position `i + 1`) survives line 82. */
  predicate Survives(i: nat)
  {
    !(DropFrom <= i + 1 < DropTo)
  }

  /** The lineage columns that survive line 82, in their order. */
  function KeptColumns(cells: seq<Option<string>>): seq<Option<string>>
  {
    if cells == [] then []
    else
      var n := |cells| - 1;
      KeptColumns(cells[..n]) + (if Survives(n) then [cells[n]] else [])
  }

  /** How many lineage columns survive out of `width`. */
  function KeptWidth(width: nat): nat
  {
    if width < DropFrom then width
    else if width < DropTo then DropFrom - 1
    else width - (DropTo - DropFrom)
  }

  /** The lineage column that surviving column `k` came from. */
  function SourceColumn(k: nat): nat
  {
    if k < DropFrom - 1 then k else k + (DropTo - DropFrom)
  }

  /**
   * The positional drop keeps the first nine lineage columns and every
   * column from the 36th on, and nothing in between.
   */
  lemma {:induction false} KeptColumnsShape(cells: seq<Option<string>>)
    ensures |KeptColumns(cells)| == KeptWidth(|cells|)
    ensures forall k :: 0 <= k < |KeptColumns(cells)| ==>
      SourceColumn(k) < |cells| && KeptColumns(cells)[k] == cells[SourceColumn(k)]
  {
    if cells != [] {
      var n := |cells| - 1;
      KeptColumnsShape(cells[..n]);
      var front := KeptColumns(cells[..n]);
      assert forall k :: 0 <= k < |front| ==> front[k] == cells[SourceColumn(k)];
      if Survives(n) {
        assert SourceColumn(|front|) == n;
      }
    }
  }

  /**
   * Cleans one row of a table whose widest lineage has `width` columns: the
   * LCA is kept, the query ID is split at its last '_' into contig name and
   * ORF, and the surviving lineage columns are the split lineage read at the
   * positions that line 82 leaves in place.
   */
  function CleanRow(r: RawRow, width: nat): (row: Row)
    requires |Lineage(r)| <= width
    ensures row.lca == r.lca
    ensures row.orf.Some? ==>
      row.contigName + [OrfSeparator] + row.orf.value == r.contig && OrfSeparator !in row.orf.value
    ensures row.orf.None? ==> row.contigName == r.contig && OrfSeparator !in r.contig
    ensures |row.tokens| == KeptWidth(width)
    ensures forall k :: 0 <= k < |row.tokens| ==> row.tokens[k] == TokenCell(Lineage(r), SourceColumn(k))
  {
    var id := RSplitOnce(r.contig, OrfSeparator);
    var cells := Padded(Lineage(r), width);
    KeptColumnsShape(cells);
    Row(r.lca, KeptColumns(cells), id.head, id.tail)
  }

  /** Line 83's mask: the row's LCA is not "unclassified". */
  function IsClassified(r: RawRow): bool
  {
    r.lca != Unclassified
  }

  /** `parse_contig_taxonomy` on the rows of the table. */
  function ParseTaxonomy(raw: seq<RawRow>): (rows: seq<Row>)
    ensures |rows| == Selection.Matching(IsClassified, raw)
    ensures forall k :: 0 <= k < |rows| ==> rows[k].lca != Unclassified
    ensures forall k :: 0 <= k < |rows| ==> |rows[k].tokens| == KeptWidth(LineageWidth(raw))
  {
    var width := LineageWidth(raw);
    var kept := Selection.Filter(IsClassified, raw);
    Selection.FilterLength(IsClassified, raw);
    seq(|kept|, k requires 0 <= k < |kept| =>
      assert |Lineage(kept[k])| <= width by {
        var i :| 0 <= i < |raw| && raw[i] == kept[k];
      }
      CleanRow(kept[k], width))
  }

  /**
   * Cleaning keeps exactly the classified rows, each cleaned, in their
   * original order: the result is the table read at an increasing sequence
   * of positions, and those are all the positions of classified rows.
   */
  lemma ParseKeepsClassifiedRows(raw: seq<RawRow>) returns (idx: seq<nat>)
    ensures |idx| == |ParseTaxonomy(raw)| && Selection.Increasing(idx)
    ensures forall k :: 0 <= k < |idx| ==>
      idx[k] < |raw| && ParseTaxonomy(raw)[k] == CleanRow(raw[idx[k]], LineageWidth(raw))
    ensures forall i :: 0 <= i < |raw| ==> (raw[i].lca != Unclassified <==> i in idx)
  {
    idx := Selection.FilterPositions(IsClassified, raw);
  }

  /** The lineage columns of a row are the pieces of its lineage string, which they rebuild. */
  lemma LineageRoundTrip(r: RawRow)
    ensures Join(Lineage(r), LineageSeparator) == r.fullTax
    ensures forall i :: 0 <= i < |Lineage(r)| ==> LineageSeparator !in Lineage(r)[i]
  {
    JoinSplit(r.fullTax, LineageSeparator);
  }
}
