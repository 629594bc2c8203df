/**
 * Per-contig phylum vote (`MagTaxonomy.get_contig_consensus_tax`,
 * src/tax.py:86-108).
 *
 * For each contig name, in order of first appearance, every present cell of
 * that contig's cleaned rows that starts with "p_" is tallied: the LCA, the
 * lineage columns, and also the Contig Name and ORF cells, since the source
 * takes the whole row. The most common tallied value is the contig's phylum.
 * A contig whose tally is empty makes `most_common(1)[0]` raise, which stops
 * the whole step.
 */
module Consensus {
  import opened Wrappers
  import opened Counting
  import Selection
  import opened Text
  import opened Parsing

  /** One line of the consensus table: columns Contig and Phylum. */
  datatype ContigPhylum = ContigPhylum(contig: string, phylum: string)

  /** The `IndexError` raised for the first contig that has no phylum cell. */
  datatype ConsensusError = NoPhylumCell(contig: string)

  const PhylumPrefix: string := "p_"

  /** `row.tolist()`: LCA, lineage columns, Contig Name, ORF. */
  function Cells(r: Row): seq<Option<string>>
  {
    [Some(r.lca)] + r.tokens + [Some(r.contigName), r.orf]
  }

  /** What one cell adds to the tally: itself if it is present and starts with "p_", else nothing. */
  function CellVote(cell: Option<string>): seq<string>
  {
    if cell.Some? && StartsWith(cell.value, PhylumPrefix) then [cell.value] else []
  }

  /** The present cells of `cells` that start with "p_", in order. */
  function PhylumCells(cells: seq<Option<string>>): seq<string>
  {
    if cells == [] then []
    else
      var n := |cells| - 1;
      PhylumCells(cells[..n]) + CellVote(cells[n])
  }

  /** What one row adds to the tally of `contig`: its phylum cells if it is named `contig`. */
  function RowTally(r: Row, contig: string): seq<string>
  {
    if r.contigName == contig then PhylumCells(Cells(r)) else []
  }

  /** `contig_taxlist`: the phylum cells of the rows named `contig`, row by row. */
  function Tally(rows: seq<Row>, contig: string): seq<string>
  {
    if rows == [] then []
    else
      var n := |rows| - 1;
      Tally(rows[..n], contig) + RowTally(rows[n], contig)
  }

  /** The tally of each contig name, as a function of the name. */
  function Votes(rows: seq<Row>): string -> seq<string>
  {
    contig => Tally(rows, contig)
  }

  /** The Contig Name column. */
  function NameColumn(rows: seq<Row>): seq<string>
  {
    seq(|rows|, i requires 0 <= i < |rows| => rows[i].contigName)
  }

  /** `contig_names`: the distinct contig names in order of first appearance. */
  function ContigNames(rows: seq<Row>): seq<string>
  {
    Selection.Unique(NameColumn(rows))
  }

  /**
   * The vote for `names` in turn, stopping at the first name whose tally is
   * empty; otherwise one line per name holding the plurality of its tally.
   */
  function Resolve(tally: string -> seq<string>, names: seq<string>): Result<seq<ContigPhylum>, ConsensusError>
  {
    if names == [] then Ok([])
    else
      var n := |names| - 1;
      match Resolve(tally, names[..n])
      case Err(e) => Err(e)
      case Ok(done) =>
        match MostCommon(tally(names[n]))
        case None => Err(NoPhylumCell(names[n]))
        case Some(p) => Ok(done + [ContigPhylum(names[n], p)])
  }

  /** A completed vote found votes for every name. */
  lemma {:induction false} ResolveOkHasVotes(tally: string -> seq<string>, names: seq<string>)
    requires Resolve(tally, names).Ok?
    ensures forall k :: 0 <= k < |names| ==> tally(names[k]) != []
  {
    if names != [] {
      var n := |names| - 1;
      var front := names[..n];
      ResolveOkHasVotes(tally, front);
      forall k | 0 <= k < n
        ensures tally(names[k]) != []
      {
        assert front[k] == names[k];
      }
    }
  }

  /** When every name has votes the vote completes. */
  lemma {:induction false} ResolveOkWhenVoted(tally: string -> seq<string>, names: seq<string>)
    requires forall k :: 0 <= k < |names| ==> tally(names[k]) != []
    ensures Resolve(tally, names).Ok?
  {
    if names != [] {
      var n := |names| - 1;
      var front := names[..n];
      forall k | 0 <= k < n
        ensures tally(front[k]) != []
      {
        assert front[k] == names[k];
      }
      ResolveOkWhenVoted(tally, front);
    }
  }

  /** The vote succeeds exactly when every name has a non-empty tally. */
  lemma ResolveSucceeds(tally: string -> seq<string>, names: seq<string>)
    ensures Resolve(tally, names).Ok? <==> forall k :: 0 <= k < |names| ==> tally(names[k]) != []
  {
    if Resolve(tally, names).Ok? {
      ResolveOkHasVotes(tally, names);
    }
    if forall k :: 0 <= k < |names| ==> tally(names[k]) != [] {
      ResolveOkWhenVoted(tally, names);
    }
  }

  /** A successful vote gives one line per name, in the order of `names`. */
  lemma {:induction false} ResolveNames(tally: string -> seq<string>, names: seq<string>)
    requires Resolve(tally, names).Ok?
    ensures |Resolve(tally, names).value| == |names|
    ensures forall k :: 0 <= k < |names| ==> Resolve(tally, names).value[k].contig == names[k]
  {
    if names != [] {
      var n := |names| - 1;
      var front := names[..n];
      ResolveNames(tally, front);
      var done := Resolve(tally, front).value;
      var table := Resolve(tally, names).value;
      assert table == done + [ContigPhylum(names[n], MostCommon(tally(names[n])).value)];
      forall k | 0 <= k < n
        ensures table[k].contig == names[k]
      {
        assert front[k] == names[k] && table[k] == done[k];
      }
    }
  }

  /** Each line of a successful vote holds the `most_common` answer for its name's tally. */
  lemma {:induction false} ResolveWinner(tally: string -> seq<string>, names: seq<string>, k: nat)
    requires Resolve(tally, names).Ok?
    requires k < |Resolve(tally, names).value| && k < |names|
    ensures MostCommon(tally(names[k])) == Some(Resolve(tally, names).value[k].phylum)
  {
    var n := |names| - 1;
    var front := names[..n];
    var done := Resolve(tally, front).value;
    ResolveNames(tally, front);
    assert Resolve(tally, names).value == done + [ContigPhylum(names[n], MostCommon(tally(names[n])).value)];
    if k < n {
      ResolveWinner(tally, front, k);
      assert front[k] == names[k];
    }
  }

  /**
   * A successful vote gives one line per name, in the order of `names`,
   * holding the plurality of that name's tally.
   */
  lemma ResolveVotes(tally: string -> seq<string>, names: seq<string>)
    requires Resolve(tally, names).Ok?
    ensures |Resolve(tally, names).value| == |names|
    ensures forall k :: 0 <= k < |names| ==>
      Resolve(tally, names).value[k].contig == names[k]
      && IsPlurality(tally(names[k]), Resolve(tally, names).value[k].phylum)
  {
    ResolveNames(tally, names);
    forall k | 0 <= k < |names|
      ensures IsPlurality(tally(names[k]), Resolve(tally, names).value[k].phylum)
    {
      ResolveWinner(tally, names, k);
      MostCommonIsPlurality(tally(names[k]));
    }
  }

  /**
   * A failed vote names the first contig, in the order of `names`, whose
   * tally is empty.
   */
  lemma {:induction false} ResolveFailsAtFirstEmptyTally(tally: string -> seq<string>, names: seq<string>) returns (i: nat)
    requires Resolve(tally, names).Err?
    ensures i < |names| && names[i] == Resolve(tally, names).error.contig
    ensures tally(names[i]) == []
    ensures forall k :: 0 <= k < i ==> tally(names[k]) != []
  {
    var n := |names| - 1;
    assert forall k :: 0 <= k < n ==> names[..n][k] == names[k];
    if Resolve(tally, names[..n]).Err? {
      i := ResolveFailsAtFirstEmptyTally(tally, names[..n]);
    } else {
      ResolveSucceeds(tally, names[..n]);
      MostCommonIsPlurality(tally(names[n]));
      i := n;
    }
  }

  /** What `get_contig_consensus_tax` returns or raises. */
  function ConsensusTable(rows: seq<Row>): Result<seq<ContigPhylum>, ConsensusError>
  {
    Resolve(Votes(rows), ContigNames(rows))
  }

  /** A failure on a prefix of the names is the failure on all of them. */
  lemma {:induction false} ResolveKeepsFirstError(tally: string -> seq<string>, names: seq<string>, m: nat)
    requires m <= |names| && Resolve(tally, names[..m]).Err?
    ensures Resolve(tally, names) == Resolve(tally, names[..m])
    decreases |names| - m
  {
    if m < |names| {
      assert names[..m + 1][..m] == names[..m];
      ResolveKeepsFirstError(tally, names, m + 1);
    } else {
      assert names[..m] == names;
    }
  }

  /** A cell reaches the tally of its rows exactly when it is present and starts with "p_". */
  lemma {:induction false} PhylumCellsMembers(cells: seq<Option<string>>, x: string)
    ensures x in PhylumCells(cells) <==> Some(x) in cells && StartsWith(x, PhylumPrefix)
  {
    if cells != [] {
      var n := |cells| - 1;
      PhylumCellsMembers(cells[..n], x);
      assert cells == cells[..n] + [cells[n]];
    }
  }

  /** Cells are collected in order: the phylum cells of a concatenation are those of its parts. */
  lemma {:induction false} PhylumCellsAppend(a: seq<Option<string>>, b: seq<Option<string>>)
    ensures PhylumCells(a + b) == PhylumCells(a) + PhylumCells(b)
  {
    if b == [] {
      assert a + b == a;
    } else {
      var n := |b| - 1;
      PhylumCellsAppend(a, b[..n]);
      assert (a + b)[..|a + b| - 1] == a + b[..n] && (a + b)[|a + b| - 1] == b[n];
      calc {
        PhylumCells(a + b);
        PhylumCells(a + b[..n]) + CellVote(b[n]);
        (PhylumCells(a) + PhylumCells(b[..n])) + CellVote(b[n]);
        PhylumCells(a) + (PhylumCells(b[..n]) + CellVote(b[n]));
        PhylumCells(a) + PhylumCells(b);
      }
    }
  }

  /**
   * A contig's tally holds exactly the present "p_" cells of the rows with
   * that contig name: LCA, lineage columns, Contig Name and ORF alike.
   */
  lemma {:induction false} TallyMembers(rows: seq<Row>, contig: string, x: string)
    ensures x in Tally(rows, contig) <==>
      StartsWith(x, PhylumPrefix) && exists i :: 0 <= i < |rows| && rows[i].contigName == contig && Some(x) in Cells(rows[i])
  {
    if rows != [] {
      var n := |rows| - 1;
      TallyMembers(rows[..n], contig, x);
      PhylumCellsMembers(Cells(rows[n]), x);
      assert forall i :: 0 <= i < n ==> rows[..n][i] == rows[i];
      if x in Tally(rows, contig) && x !in Tally(rows[..n], contig) {
        assert rows[n].contigName == contig && Some(x) in Cells(rows[n]);
      }
    }
  }

  /** The tally of consecutive blocks of rows is the tallies of the blocks, in order. */
  lemma {:induction false} TallyAppend(a: seq<Row>, b: seq<Row>, contig: string)
    ensures Tally(a + b, contig) == Tally(a, contig) + Tally(b, contig)
  {
    if b == [] {
      assert a + b == a;
    } else {
      var n := |b| - 1;
      TallyAppend(a, b[..n], contig);
      TallyLast(a, b, contig);
      var x, y, z := Tally(a, contig), Tally(b[..n], contig), RowTally(b[n], contig);
      assert Tally(b, contig) == y + z;
      assert Tally(a + b, contig) == (x + y) + z;
      assert (x + y) + z == x + (y + z) by {
        assert |(x + y) + z| == |x + (y + z)|;
        forall k | 0 <= k < |x + (y + z)|
          ensures ((x + y) + z)[k] == (x + (y + z))[k]
        {
        }
      }
    }
  }

  /** The last row of `a + b` is the last row of `b`, tallied after the rest. */
  lemma TallyLast(a: seq<Row>, b: seq<Row>, contig: string)
    requires b != []
    ensures Tally(a + b, contig) == Tally(a + b[..|b| - 1], contig) + RowTally(b[|b| - 1], contig)
  {
    var ab := a + b;
    assert ab[..|ab| - 1] == a + b[..|b| - 1];
  }

  /** A row of another contig, wherever it stands, adds nothing to a contig's tally. */
  lemma OtherContigRowIgnored(before: seq<Row>, r: Row, after: seq<Row>, contig: string)
    requires r.contigName != contig
    ensures Tally(before + [r] + after, contig) == Tally(before + after, contig)
  {
    TallyAppend(before + [r], after, contig);
    TallyAppend(before, [r], contig);
    TallyAppend(before, after, contig);
    assert [r][..0] == [];
  }

  /**
   * A successful consensus has one line per distinct contig name, in order
   * of first appearance, each holding a phylum that starts with "p_" and is
   * the plurality of that contig's tally.
   */
  lemma ConsensusLines(rows: seq<Row>)
    requires ConsensusTable(rows).Ok?
    ensures |ConsensusTable(rows).value| == |ContigNames(rows)|
    ensures forall k :: 0 <= k < |ContigNames(rows)| ==>
      ConsensusTable(rows).value[k].contig == ContigNames(rows)[k]
      && StartsWith(ConsensusTable(rows).value[k].phylum, PhylumPrefix)
      && IsPlurality(Tally(rows, ContigNames(rows)[k]), ConsensusTable(rows).value[k].phylum)
  {
    var names := ContigNames(rows);
    ResolveVotes(Votes(rows), names);
    forall k | 0 <= k < |names|
      ensures StartsWith(ConsensusTable(rows).value[k].phylum, PhylumPrefix)
    {
      TallyMembers(rows, names[k], ConsensusTable(rows).value[k].phylum);
    }
  }

  /** The contigs of a successful consensus are pairwise distinct. */
  lemma ConsensusContigsDistinct(rows: seq<Row>)
    requires ConsensusTable(rows).Ok?
    ensures forall i, j :: 0 <= i < j < |ConsensusTable(rows).value| ==>
      ConsensusTable(rows).value[i].contig != ConsensusTable(rows).value[j].contig
  {
    ResolveNames(Votes(rows), ContigNames(rows));
    Selection.UniqueContents(NameColumn(rows));
  }

  /** Every contig of a successful consensus is the contig name of some row. */
  lemma ConsensusContigsFromRows(rows: seq<Row>, k: nat)
    requires ConsensusTable(rows).Ok? && k < |ConsensusTable(rows).value|
    ensures exists i :: 0 <= i < |rows| && rows[i].contigName == ConsensusTable(rows).value[k].contig
  {
    var names := ContigNames(rows);
    var column := NameColumn(rows);
    Selection.UniqueContents(column);
    ResolveNames(Votes(rows), names);
    var i :| 0 <= i < |column| && column[i] == names[k];
    assert rows[i].contigName == ConsensusTable(rows).value[k].contig;
  }

  /** Every row's contig name has a line in a successful consensus. */
  lemma ConsensusCoversRows(rows: seq<Row>, i: nat)
    requires ConsensusTable(rows).Ok? && i < |rows|
    ensures exists k :: 0 <= k < |ConsensusTable(rows).value| && ConsensusTable(rows).value[k].contig == rows[i].contigName
  {
    var names := ContigNames(rows);
    var column := NameColumn(rows);
    Selection.UniqueContents(column);
    ResolveNames(Votes(rows), names);
    assert column[i] in names;
    var k :| 0 <= k < |names| && names[k] == column[i];
    assert ConsensusTable(rows).value[k].contig == rows[i].contigName;
  }

  /** The lines of a successful consensus follow the order in which contig names first appear. */
  lemma ConsensusOrder(rows: seq<Row>, i: nat, j: nat)
    requires ConsensusTable(rows).Ok?
    requires i < j < |ConsensusTable(rows).value|
    ensures ConsensusTable(rows).value[i].contig in NameColumn(rows)
    ensures ConsensusTable(rows).value[j].contig in NameColumn(rows)
    ensures FirstIndex(NameColumn(rows), ConsensusTable(rows).value[i].contig)
      < FirstIndex(NameColumn(rows), ConsensusTable(rows).value[j].contig)
  {
    ResolveNames(Votes(rows), ContigNames(rows));
    Selection.UniqueContents(NameColumn(rows));
    Selection.UniqueInFirstAppearanceOrder(NameColumn(rows), i, j);
  }

  /**
   * The consensus fails exactly when some contig has no phylum cell, and
   * then names the first such contig in order of first appearance.
   */
  lemma ConsensusFailure(rows: seq<Row>)
    ensures ConsensusTable(rows).Err? <==>
      exists i :: 0 <= i < |rows| && Tally(rows, rows[i].contigName) == []
    ensures ConsensusTable(rows).Err? ==>
      exists i :: 0 <= i < |ContigNames(rows)| && ContigNames(rows)[i] == ConsensusTable(rows).error.contig
        && Tally(rows, ContigNames(rows)[i]) == []
        && forall k :: 0 <= k < i ==> Tally(rows, ContigNames(rows)[k]) != []
  {
    var names := ContigNames(rows);
    var column := NameColumn(rows);
    Selection.UniqueContents(column);
    ResolveSucceeds(Votes(rows), names);
    if ConsensusTable(rows).Err? {
      var i := ResolveFailsAtFirstEmptyTally(Votes(rows), names);
      assert names[i] in column;
    } else {
      forall i | 0 <= i < |rows|
        ensures Tally(rows, rows[i].contigName) != []
      {
        assert column[i] in names;
      }
    }
  }

  /** One more name: the vote so far, extended by that name's plurality or stopped by its empty tally. */
  lemma ResolveStep(tally: string -> seq<string>, names: seq<string>, i: nat)
    requires i < |names|
    ensures Resolve(tally, names[..i + 1]) ==
      match Resolve(tally, names[..i])
      case Err(e) => Err(e)
      case Ok(done) =>
        match MostCommon(tally(names[i]))
        case None => Err(NoPhylumCell(names[i]))
        case Some(p) => Ok(done + [ContigPhylum(names[i], p)])
  {
    assert names[..i + 1][..i] == names[..i];
  }

  /** One more row: the tally so far, extended by that row's phylum cells if it is named `contig`. */
  lemma TallyStep(rows: seq<Row>, j: nat, contig: string)
    requires j < |rows|
    ensures Tally(rows[..j + 1], contig) ==
      Tally(rows[..j], contig) + RowTally(rows[j], contig)
  {
    assert rows[..j + 1][..j] == rows[..j];
  }

  /** One more cell: the phylum cells so far, extended by that cell if it is a present "p_" value. */
  lemma PhylumCellsStep(cells: seq<Option<string>>, c: nat)
    requires c < |cells|
    ensures PhylumCells(cells[..c + 1]) ==
      PhylumCells(cells[..c]) + CellVote(cells[c])
  {
    assert cells[..c + 1][..c] == cells[..c];
  }

  /**
   * The source's loops: for each contig name, scan every row, collect the
   * phylum cells of the rows with that name, take the most common one and
   * record it in the `contig_tax` dictionary; the table lists the
   * dictionary's items in insertion order.
   */
  method GetContigConsensusTax(rows: seq<Row>) returns (result: Result<seq<ContigPhylum>, ConsensusError>)
    ensures result == ConsensusTable(rows)
  {
    var contigTax: map<string, string> := map[];
    var contigNames := ContigNames(rows);
    Selection.UniqueContents(NameColumn(rows));
    ghost var done: seq<ContigPhylum> := [];
    for i := 0 to |contigNames|
      invariant Resolve(Votes(rows), contigNames[..i]) == Ok(done)
      invariant |done| == i
      invariant forall k :: 0 <= k < i ==>
        contigNames[k] in contigTax && done[k] == ContigPhylum(contigNames[k], contigTax[contigNames[k]])
    {
      var contig := contigNames[i];
      var contigTaxlist := ContigTaxlist(rows, contig);
      ResolveStep(Votes(rows), contigNames, i);
      var contigPhylum := MostCommon(contigTaxlist);
      if contigPhylum.None? {
        ResolveKeepsFirstError(Votes(rows), contigNames, i + 1);
        return Err(NoPhylumCell(contig));
      }
      ghost var before := contigTax;
      contigTax := contigTax[contig := contigPhylum.value];
      done := done + [ContigPhylum(contig, contigPhylum.value)];
      forall k | 0 <= k < i
        ensures contigNames[k] in contigTax && done[k] == ContigPhylum(contigNames[k], contigTax[contigNames[k]])
      {
        assert contigNames[k] != contig;
        assert contigTax[contigNames[k]] == before[contigNames[k]];
      }
    }
    assert contigNames[..|contigNames|] == contigNames;
    result := Ok(seq(|contigNames|, k requires 0 <= k < |contigNames| =>
      ContigPhylum(contigNames[k], contigTax[contigNames[k]])));
    assert result.value == done;
  }

  /**
   * The row loop of the vote: scan every row and, for a row named `contig`,
   * append its phylum cells.
   */
  method ContigTaxlist(rows: seq<Row>, contig: string) returns (contigTaxlist: seq<string>)
    ensures contigTaxlist == Tally(rows, contig)
  {
    contigTaxlist := [];
    for j := 0 to |rows|
      invariant contigTaxlist == Tally(rows[..j], contig)
    {
      TallyStep(rows, j, contig);
      var row := rows[j];
      if row.contigName == contig {
        contigTaxlist := AppendPhylumCells(contigTaxlist, Cells(row));
      }
    }
    assert rows[..|rows|] == rows;
  }

  /**
   * The cell loop of the vote: append each present cell of `rowlist` that
   * starts with "p_" to `taxlist`.
   */
  method AppendPhylumCells(taxlist: seq<string>, rowlist: seq<Option<string>>) returns (extended: seq<string>)
    ensures extended == taxlist + PhylumCells(rowlist)
  {
    extended := taxlist;
    for c := 0 to |rowlist|
      invariant extended == taxlist + PhylumCells(rowlist[..c])
    {
      PhylumCellsStep(rowlist, c);
      var item := rowlist[c];
      if item.Some? && StartsWith(item.value, PhylumPrefix) {
        extended := extended + [item.value];
      }
      assert extended == taxlist + (PhylumCells(rowlist[..c]) + CellVote(item));
    }
    assert rowlist[..|rowlist|] == rowlist;
  }
}
