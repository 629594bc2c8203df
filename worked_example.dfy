/**
 * A worked example of the whole pipeline: three classified ORFs on two
 * contigs and one unclassified ORF.
 *
 * The example is stated for any choice of names that behave like
 * k_Bacteria, p_Firmicutes and p_Proteobacteria (two different phyla and a
 * rank token that is not a phylum), and then instantiated with those names.
 * Contig c1 votes p_Firmicutes, its LCA cell counting as a vote; c2 votes
 * p_Proteobacteria. With one contig each, the dataset-wide tie goes to the
 * first-seen p_Firmicutes, so c2 is the outlier.
 */
module WorkedExample {
  import opened Wrappers
  import opened Counting
  import opened Text
  import opened Parsing
  import Selection
  import opened Consensus
  import opened Outliers

  /** The names the example is built from. */
  datatype Vocabulary = Vocabulary(
    rank: string,     // a lineage token that is not a phylum, such as k_Bacteria
    first: string,    // the phylum of contig c1
    second: string,   // the phylum of contig c2
    c1: string, c2: string, c3: string,
    o1: string, o2: string)

  /** What the example needs of its names. */
  predicate Suitable(v: Vocabulary)
  {
    StartsWith(v.first, PhylumPrefix) && StartsWith(v.second, PhylumPrefix) && v.first != v.second
    && !StartsWith(v.rank, PhylumPrefix) && !StartsWith(v.c1, PhylumPrefix) && !StartsWith(v.c2, PhylumPrefix)
    && !StartsWith(v.o1, PhylumPrefix) && !StartsWith(v.o2, PhylumPrefix)
    && v.c1 != v.c2
    && LineageSeparator !in v.rank && LineageSeparator !in v.first && LineageSeparator !in v.second
    && OrfSeparator !in v.o1 && OrfSeparator !in v.o2
    && v.rank != Unclassified && v.first != Unclassified && v.second != Unclassified
  }

  function Id(contig: string, orf: string): string
  {
    contig + [OrfSeparator] + orf
  }

  function Lineage2(a: string, b: string): string
  {
    a + [LineageSeparator] + b
  }

  /** The taxonomy table: four ORFs, the last one unclassified. */
  function RawTable(v: Vocabulary): seq<RawRow>
  {
    [RawRow(Id(v.c1, v.o1), "2", "superkingdom", v.rank, Lineage2(v.rank, v.first)),
     RawRow(Id(v.c1, v.o2), "1239", "phylum", v.first, Lineage2(v.rank, v.first)),
     RawRow(Id(v.c2, v.o1), "1224", "phylum", v.second, Lineage2(v.rank, v.second)),
     RawRow(Id(v.c3, v.o1), "0", "no rank", Unclassified, "")]
  }

  /** The cleaned table. */
  function CleanTable(v: Vocabulary): seq<Row>
  {
    [Row(v.rank, [Some(v.rank), Some(v.first)], v.c1, Some(v.o1)),
     Row(v.first, [Some(v.rank), Some(v.first)], v.c1, Some(v.o2)),
     Row(v.second, [Some(v.rank), Some(v.second)], v.c2, Some(v.o1))]
  }

  /** The consensus table. */
  function ConsensusOf(v: Vocabulary): seq<ContigPhylum>
  {
    [ContigPhylum(v.c1, v.first), ContigPhylum(v.c2, v.second)]
  }

  lemma CleanTwoRankRow(r: RawRow, name: string, orf: string, a: string, b: string)
    requires r.contig == Id(name, orf) && OrfSeparator !in orf
    requires r.fullTax == Lineage2(a, b) && LineageSeparator !in a && LineageSeparator !in b
    ensures Lineage(r) == [a, b]
    ensures CleanRow(r, 2) == Row(r.lca, [Some(a), Some(b)], name, Some(orf))
  {
    SplitJoin([a, b], LineageSeparator);
    assert Join([a, b], LineageSeparator) == a + [LineageSeparator] + b by {
      assert [a, b][1..] == [b];
    }
    RSplitAtLastSeparator(name, OrfSeparator, orf);
    var row := CleanRow(r, 2);
    assert SourceColumn(0) == 0 && SourceColumn(1) == 1;
    assert row.tokens == [Some(a), Some(b)];
  }

  lemma CleanRowsOfTable(v: Vocabulary)
    requires Suitable(v)
    ensures |Lineage(RawTable(v)[3])| == 1
    ensures |Lineage(RawTable(v)[0])| == 2 && CleanRow(RawTable(v)[0], 2) == CleanTable(v)[0]
    ensures |Lineage(RawTable(v)[1])| == 2 && CleanRow(RawTable(v)[1], 2) == CleanTable(v)[1]
    ensures |Lineage(RawTable(v)[2])| == 2 && CleanRow(RawTable(v)[2], 2) == CleanTable(v)[2]
  {
    var raw := RawTable(v);
    CleanTwoRankRow(raw[0], v.c1, v.o1, v.rank, v.first);
    CleanTwoRankRow(raw[1], v.c1, v.o2, v.rank, v.first);
    CleanTwoRankRow(raw[2], v.c2, v.o1, v.rank, v.second);
  }

  lemma WidthOfTable(v: Vocabulary)
    requires Suitable(v)
    ensures LineageWidth(RawTable(v)) == 2
  {
    var raw := RawTable(v);
    CleanRowsOfTable(v);
    var three, two, one := raw[..3], raw[..3][..2], raw[..3][..2][..1];
    assert three == [raw[0], raw[1], raw[2]] && two == [raw[0], raw[1]] && one == [raw[0]] && one[..0] == [];
    assert LineageWidth(one) == 2;
    assert LineageWidth(two) == 2;
    assert LineageWidth(three) == 2;
  }

  lemma FilterStep<T>(keep: T -> bool, s: seq<T>, k: nat)
    requires k < |s|
    ensures Selection.Filter(keep, s[..k + 1]) == Selection.Filter(keep, s[..k]) + (if keep(s[k]) then [s[k]] else [])
  {
    assert s[..k + 1][..k] == s[..k];
  }

  /** Of four rows, a mask that holds for the first three only keeps those three. */
  lemma FirstThreeKept<T>(keep: T -> bool, s: seq<T>)
    requires |s| == 4 && keep(s[0]) && keep(s[1]) && keep(s[2]) && !keep(s[3])
    ensures Selection.Filter(keep, s) == s[..3]
  {
    FilterStep(keep, s, 0);
    FilterStep(keep, s, 1);
    FilterStep(keep, s, 2);
    FilterStep(keep, s, 3);
    assert s[..0] == [] && s[..4] == s;
    assert s[..1] == [s[0]] && s[..2] == s[..1] + [s[1]] && s[..3] == s[..2] + [s[2]];
  }

  lemma ClassifiedOfTable(v: Vocabulary)
    requires Suitable(v)
    ensures Selection.Filter(IsClassified, RawTable(v)) == RawTable(v)[..3]
  {
    FirstThreeKept(IsClassified, RawTable(v));
  }

  /** Cleaning drops the unclassified ORF and splits IDs and lineages. */
  lemma ParseScenario(v: Vocabulary)
    requires Suitable(v)
    ensures ParseTaxonomy(RawTable(v)) == CleanTable(v)
  {
    var raw := RawTable(v);
    WidthOfTable(v);
    ClassifiedOfTable(v);
    CleanRowsOfTable(v);
    var rows := ParseTaxonomy(raw);
    assert |rows| == 3;
    assert rows[0] == CleanRow(raw[0], 2) && rows[1] == CleanRow(raw[1], 2) && rows[2] == CleanRow(raw[2], 2);
    ThreeElements(rows, CleanTable(v)[0], CleanTable(v)[1], CleanTable(v)[2]);
  }

  lemma ThreeElements<T>(s: seq<T>, a: T, b: T, c: T)
    requires |s| == 3 && s[0] == a && s[1] == b && s[2] == c
    ensures s == [a, b, c]
  {
  }

  lemma FiveCells(a: Option<string>, b: Option<string>, c: Option<string>, d: Option<string>, e: Option<string>)
    ensures PhylumCells([a, b, c, d, e]) == CellVote(a) + CellVote(b) + CellVote(c) + CellVote(d) + CellVote(e)
  {
    var none: seq<Option<string>> := [];
    var noVotes: seq<string> := [];
    assert PhylumCells([a]) == CellVote(a) by {
      assert [a][..0] == none && noVotes + CellVote(a) == CellVote(a);
    }
    assert PhylumCells([a, b]) == PhylumCells([a]) + CellVote(b) by { assert [a, b][..1] == [a]; }
    assert PhylumCells([a, b, c]) == PhylumCells([a, b]) + CellVote(c) by { assert [a, b, c][..2] == [a, b]; }
    assert PhylumCells([a, b, c, d]) == PhylumCells([a, b, c]) + CellVote(d) by { assert [a, b, c, d][..3] == [a, b, c]; }
    assert PhylumCells([a, b, c, d, e]) == PhylumCells([a, b, c, d]) + CellVote(e) by {
      assert [a, b, c, d, e][..4] == [a, b, c, d];
    }
  }

  /** The votes of a row with two lineage columns, cell by cell. */
  lemma RowVotes(r: Row)
    requires |r.tokens| == 2
    ensures PhylumCells(Cells(r)) == CellVote(Some(r.lca)) + CellVote(r.tokens[0]) + CellVote(r.tokens[1])
      + CellVote(Some(r.contigName)) + CellVote(r.orf)
  {
    assert Cells(r) == [Some(r.lca), r.tokens[0], r.tokens[1], Some(r.contigName), r.orf];
    FiveCells(Some(r.lca), r.tokens[0], r.tokens[1], Some(r.contigName), r.orf);
  }

  /** A row whose lineage is [rank, phylum] votes for its LCA if that is a phylum, then for `phylum`. */
  lemma VotesOfRow(r: Row, rank: string, phylum: string)
    requires r.tokens == [Some(rank), Some(phylum)] && !StartsWith(rank, PhylumPrefix) && StartsWith(phylum, PhylumPrefix)
    requires !StartsWith(r.contigName, PhylumPrefix) && r.orf.Some? && !StartsWith(r.orf.value, PhylumPrefix)
    ensures PhylumCells(Cells(r)) == CellVote(Some(r.lca)) + [phylum]
  {
    RowVotes(r);
    assert CellVote(r.tokens[0]) == [] && CellVote(r.tokens[1]) == [phylum];
    assert CellVote(Some(r.contigName)) == [] && CellVote(r.orf) == [];
  }

  lemma VotesOfRows(v: Vocabulary)
    requires Suitable(v)
    ensures PhylumCells(Cells(CleanTable(v)[0])) == [v.first]
    ensures PhylumCells(Cells(CleanTable(v)[1])) == [v.first, v.first]
    ensures PhylumCells(Cells(CleanTable(v)[2])) == [v.second, v.second]
  {
    var rows := CleanTable(v);
    VotesOfRow(rows[0], v.rank, v.first);
    VotesOfRow(rows[1], v.rank, v.first);
    VotesOfRow(rows[2], v.rank, v.second);
    assert CellVote(Some(v.rank)) == [] && CellVote(Some(v.first)) == [v.first];
    assert CellVote(Some(v.second)) == [v.second];
  }

  lemma ThreeRows(rows: seq<Row>, c: string)
    requires |rows| == 3
    ensures Tally(rows, c) ==
      RowTally(rows[0], c) + RowTally(rows[1], c) + RowTally(rows[2], c)
  {
    var none: seq<Row> := [];
    var noVotes: seq<string> := [];
    TallyStep(rows, 0, c);
    assert rows[..0] == none && Tally(none, c) == noVotes && noVotes + RowTally(rows[0], c) == RowTally(rows[0], c);
    assert Tally(rows[..1], c) == RowTally(rows[0], c);
    TallyStep(rows, 1, c);
    TallyStep(rows, 2, c);
    assert rows[..3] == rows;
  }

  lemma TalliesOfTable(v: Vocabulary)
    requires Suitable(v)
    ensures Tally(CleanTable(v), v.c1) == [v.first, v.first, v.first]
    ensures Tally(CleanTable(v), v.c2) == [v.second, v.second]
  {
    var rows := CleanTable(v);
    var none: seq<string> := [];
    VotesOfRows(v);
    assert RowTally(rows[0], v.c1) == [v.first] && RowTally(rows[1], v.c1) == [v.first, v.first];
    assert RowTally(rows[2], v.c1) == none;
    assert RowTally(rows[0], v.c2) == none && RowTally(rows[1], v.c2) == none;
    assert RowTally(rows[2], v.c2) == [v.second, v.second];
    ThreeRows(rows, v.c1);
    ThreeRows(rows, v.c2);
    assert [v.first] + [v.first, v.first] + none == [v.first, v.first, v.first];
    assert none + none + [v.second, v.second] == [v.second, v.second];
  }

  lemma UniqueStep<T>(s: seq<T>, k: nat)
    requires k < |s|
    ensures Selection.Unique(s[..k + 1]) ==
      if s[k] in Selection.Unique(s[..k]) then Selection.Unique(s[..k]) else Selection.Unique(s[..k]) + [s[k]]
  {
    assert s[..k + 1][..k] == s[..k];
  }

  /** The distinct values of [a, a, b]. */
  lemma UniqueOfThree(a: string, b: string)
    requires a != b
    ensures Selection.Unique([a, a, b]) == [a, b]
  {
    var column := [a, a, b];
    var none: seq<string> := [];
    UniqueStep(column, 0);
    assert column[..0] == none && Selection.Unique(none) == none && none + [a] == [a];
    UniqueStep(column, 1);
    UniqueStep(column, 2);
    assert column[..3] == column;
  }

  lemma NamesOfTable(v: Vocabulary)
    requires Suitable(v)
    ensures ContigNames(CleanTable(v)) == [v.c1, v.c2]
  {
    assert NameColumn(CleanTable(v)) == [v.c1, v.c1, v.c2];
    UniqueOfThree(v.c1, v.c2);
  }

  /** A list made of one repeated value has that value as its most common one. */
  lemma MostCommonOfRepeated(x: string, n: nat)
    requires n > 0
    ensures MostCommon(seq(n, _ => x)) == Some(x)
  {
  }

  /** Every contig's tally is decided by the repeated phylum of its rows. */
  lemma ConsensusScenario(v: Vocabulary)
    requires Suitable(v)
    ensures ConsensusTable(CleanTable(v)) == Ok(ConsensusOf(v))
  {
    var rows := CleanTable(v);
    TalliesOfTable(v);
    NamesOfTable(v);
    var names := [v.c1, v.c2];
    MostCommonOfRepeated(v.first, 3);
    MostCommonOfRepeated(v.second, 2);
    assert seq(3, _ => v.first) == [v.first, v.first, v.first];
    assert seq(2, _ => v.second) == [v.second, v.second];
    var empty: seq<string> := [];
    assert names[..0] == empty && names[..2] == names;
    assert Resolve(Votes(rows), empty) == Ok([]);
    ResolveStep(Votes(rows), names, 0);
    assert names[0] == v.c1 && Tally(rows, v.c1) == seq(3, _ => v.first);
    assert MostCommon(Tally(rows, names[0])) == Some(v.first);
    var none: seq<ContigPhylum> := [];
    assert Resolve(Votes(rows), names[..0]) == Ok(none);
    assert none + [ContigPhylum(v.c1, v.first)] == [ContigPhylum(v.c1, v.first)];
    assert Resolve(Votes(rows), names[..1]) == Ok([ContigPhylum(v.c1, v.first)]);
    ResolveStep(Votes(rows), names, 1);
    assert names[1] == v.c2 && Tally(rows, v.c2) == seq(2, _ => v.second);
    assert MostCommon(Tally(rows, names[1])) == Some(v.second);
    assert [ContigPhylum(v.c1, v.first)] + [ContigPhylum(v.c2, v.second)] == ConsensusOf(v);
    assert Resolve(Votes(rows), names[..2]) == Ok(ConsensusOf(v));
  }

  /**
   * With one contig per phylum the dataset-wide tie goes to the phylum seen
   * first, and the other contig is the outlier.
   */
  lemma OutlierScenario(v: Vocabulary)
    requires Suitable(v)
    ensures ErroneousContigs(ConsensusOf(v)) == Ok([ContigPhylum(v.c2, v.second)])
  {
    var f, p := v.first, v.second;
    var t := ConsensusOf(v);
    var ph := Phyla(t);
    assert ph == [f, p];
    var first: seq<string> := [f];
    assert ph[..1] == first && first[..0] == [];
    assert Count(first, f) == 1 && Count(first, p) == 0;
    assert Count(ph, f) == 1 && Count(ph, p) == 1;
    assert LeaderIndex(ph, 2) == 0;
    var head: seq<ContigPhylum> := [t[0]];
    assert t[..1] == head && head[..0] == [];
    assert MostCommon(ph) == Some(f);
    assert Differing(head, f) == [];
    assert Differing(t, f) == [t[1]];
  }

  /** The three steps chained. */
  lemma PipelineScenario(v: Vocabulary)
    requires Suitable(v)
    ensures ConsensusTable(ParseTaxonomy(RawTable(v))) == Ok(ConsensusOf(v))
    ensures ErroneousContigs(ConsensusOf(v)) == Ok([ContigPhylum(v.c2, v.second)])
  {
    ParseScenario(v);
    ConsensusScenario(v);
    OutlierScenario(v);
  }

  /** The example with realistic names. */
  function Example(): Vocabulary
  {
    Vocabulary("k_Bacteria", "p_Firmicutes", "p_Proteobacteria", "c1", "c2", "c3", "1", "2")
  }

  lemma ExamplePhyla()
    ensures StartsWith(Example().first, PhylumPrefix) && StartsWith(Example().second, PhylumPrefix)
    ensures Example().first != Example().second
  {
    var v := Example();
    assert v.first[2] != v.second[2];
  }

  lemma ExampleOthers()
    ensures !StartsWith(Example().rank, PhylumPrefix) && !StartsWith(Example().c1, PhylumPrefix) && !StartsWith(Example().c2, PhylumPrefix)
    ensures !StartsWith(Example().o1, PhylumPrefix) && !StartsWith(Example().o2, PhylumPrefix)
  {
    var v := Example();
    assert v.rank[..2][0] == 'k' && v.c1[..2][0] == 'c' && v.c2[..2][0] == 'c';
  }

  lemma ExampleSeparators()
    ensures LineageSeparator !in Example().rank && LineageSeparator !in Example().first
    ensures LineageSeparator !in Example().second
    ensures OrfSeparator !in Example().o1 && OrfSeparator !in Example().o2
  {
  }

  lemma ExampleDistinct()
    ensures Example().c1 != Example().c2
    ensures Example().rank != Unclassified && Example().first != Unclassified && Example().second != Unclassified
  {
    var v := Example();
    assert v.c1[1] != v.c2[1];
    assert v.rank[0] != Unclassified[0] && v.first[0] != Unclassified[0] && v.second[0] != Unclassified[0];
  }

  lemma ExampleIsSuitable()
    ensures Suitable(Example())
  {
    ExamplePhyla();
    ExampleOthers();
    ExampleSeparators();
    ExampleDistinct();
  }

  /** The example: c2 disagrees with the MAG's consensus phylum. */
  lemma PipelineExample()
    ensures ConsensusTable(ParseTaxonomy(RawTable(Example())))
      == Ok([ContigPhylum("c1", "p_Firmicutes"), ContigPhylum("c2", "p_Proteobacteria")])
    ensures ErroneousContigs([ContigPhylum("c1", "p_Firmicutes"), ContigPhylum("c2", "p_Proteobacteria")])
      == Ok([ContigPhylum("c2", "p_Proteobacteria")])
  {
    ExampleIsSuitable();
    PipelineScenario(Example());
  }
}
