/** ParseWMICSV of pkg/qga/types.go from the split CSV records on: columns are found by header name, so
    their order in the output of the Windows tools does not matter. */
module WmiCsv {
  import opened Bits
  import opened GoText
  import opened QgaMetrics
  import opened Seqs

  datatype Outcome =
    | Rows(rows: seq<DiskCounters>)
    | NoDataRows
    | MissingColumn
    | BadNumber
    | NoValidRows

  function Required(): (names: seq<string>)
    ensures |names| == 6
  {
    ["name", "avgdiskreadqueuelength", "avgdiskwritequeuelength", "diskreadspersec", "diskwritespersec",
      "timestamp_sys100ns"]
  }

  function Normalize(h: string): string { ToLower(TrimSpace(h)) }

  function Names(header: seq<string>): (names: seq<string>)
    ensures |names| == |header| && forall i :: 0 <= i < |header| ==> names[i] == Normalize(header[i])
  {
    seq(|header|, i requires 0 <= i < |header| => Normalize(header[i]))
  }

  /** Column index by normalized header; of two equal headers the later counts. */
  function Columns(names: seq<string>): (m: map<string, nat>)
    ensures forall name :: name in m ==> m[name] < |names|
  {
    if names == [] then map[]
    else Columns(names[..|names| - 1])[names[|names| - 1] := |names| - 1]
  }

  ghost predicate HasRequired(cols: map<string, nat>) {
    forall name :: name in Required() ==> name in cols
  }

  datatype RowOutcome = Skip | Bad | Row(counters: DiskCounters)

  function Counter(cell: string): (r: Option<nat>)
    ensures r.Some? ==> r.value < TWO_64
  {
    ParseUint(TrimSpace(cell), TWO_64)
  }

  /** The counters, unless one of the numbers is missing. */
  function Assembled(name: string, rdQ: Option<nat>, wrQ: Option<nat>, rdOps: Option<nat>, wrOps: Option<nat>,
                     ts: Option<nat>): RowOutcome
    requires forall o :: o in {rdQ, wrQ, rdOps, wrOps, ts} && o.Some? ==> o.value < TWO_64
  {
    if rdQ.None? || wrQ.None? || rdOps.None? || wrOps.None? || ts.None? then Bad
    else Row(DiskCounters(name, rdQ.value, wrQ.value, rdOps.value, wrOps.value, ts.value))
  }

  /** A data row given as its required cells in the order of Required. */
  function ParseCells(cells: seq<string>): RowOutcome
    requires |cells| == 6
  {
    var name := TrimSpace(cells[0]);
    if name == "" || EqualFold(name, "_Total") then Skip
    else Assembled(name, Counter(cells[1]), Counter(cells[2]), Counter(cells[3]), Counter(cells[4]), Counter(cells[5]))
  }

  /** The row is long enough to hold every required column. */
  ghost predicate LongEnough(cols: map<string, nat>, row: seq<string>)
    requires HasRequired(cols)
  {
    forall name :: name in Required() ==> cols[name] < |row|
  }

  ghost function Cells(cols: map<string, nat>, row: seq<string>): (cells: seq<string>)
    requires HasRequired(cols) && LongEnough(cols, row)
    ensures |cells| == |Required()| && forall i :: 0 <= i < |Required()| ==> cells[i] == row[cols[Required()[i]]]
  {
    seq(|Required()|, i requires 0 <= i < |Required()| => assert Required()[i] in Required(); row[cols[Required()[i]]])
  }

  ghost function ParseRow(cols: map<string, nat>, row: seq<string>): RowOutcome
    requires HasRequired(cols)
  {
    if LongEnough(cols, row) then ParseCells(Cells(cols, row)) else Skip
  }

  ghost function RowOutcomes(cols: map<string, nat>, rows: seq<seq<string>>): seq<RowOutcome>
    requires HasRequired(cols)
  {
    seq(|rows|, i requires 0 <= i < |rows| => ParseRow(cols, rows[i]))
  }

  /** The counters among these outcomes, in order, unless one is bad. */
  ghost function Kept(outcomes: seq<RowOutcome>): Option<seq<DiskCounters>> {
    if outcomes == [] then Some([])
    else
      match Kept(outcomes[..|outcomes| - 1])
      case None => None
      case Some(cs) =>
        match outcomes[|outcomes| - 1]
        case Skip => Some(cs)
        case Bad => None
        case Row(c) => Some(cs + [c])
  }

  ghost function ParseRows(cols: map<string, nat>, rows: seq<seq<string>>): Option<seq<DiskCounters>>
    requires HasRequired(cols)
  {
    Kept(RowOutcomes(cols, rows))
  }

  ghost function ParseTable(cols: map<string, nat>, rows: seq<seq<string>>): Outcome {
    if !HasRequired(cols) then MissingColumn
    else
      match ParseRows(cols, rows)
      case None => BadNumber
      case Some(cs) => if cs == [] then NoValidRows else Rows(cs)
  }

  ghost function ParseRecords(records: seq<seq<string>>): Outcome {
    if |records| < 2 then NoDataRows else ParseTable(Columns(Names(records[0])), records[1..])
  }

  lemma {:induction false} BadStaysBad(outcomes: seq<RowOutcome>, i: nat)
    requires i <= |outcomes| && Kept(outcomes[..i]).None?
    ensures Kept(outcomes).None?
    decreases |outcomes|
  {
    if i < |outcomes| {
      assert outcomes[..|outcomes| - 1][..i] == outcomes[..i];
      BadStaysBad(outcomes[..|outcomes| - 1], i);
    } else {
      assert outcomes[..i] == outcomes;
    }
  }

  lemma KeptOneMore(outcomes: seq<RowOutcome>, i: nat, found: seq<DiskCounters>)
    requires i < |outcomes| && Kept(outcomes[..i]) == Some(found)
    ensures outcomes[i].Skip? ==> Kept(outcomes[..i + 1]) == Some(found)
    ensures outcomes[i].Row? ==> Kept(outcomes[..i + 1]) == Some(found + [outcomes[i].counters])
    ensures outcomes[i].Bad? ==> Kept(outcomes).None?
  {
    assert outcomes[..i + 1][..i] == outcomes[..i];
    if outcomes[i].Bad? { BadStaysBad(outcomes, i + 1); }
  }

  method IndexColumns(header: seq<string>) returns (cols: map<string, nat>)
    ensures cols == Columns(Names(header))
  {
    cols := map[];
    ghost var names := Names(header);
    for i := 0 to |header|
      invariant cols == Columns(names[..i])
    {
      assert names[..i + 1][..i] == names[..i];
      cols := cols[Normalize(header[i]) := i];
    }
    assert names[..|header|] == names;
  }

  method CheckRequired(cols: map<string, nat>) returns (ok: bool)
    ensures ok == HasRequired(cols)
  {
    for k := 0 to |Required()|
      invariant forall j :: 0 <= j < k ==> Required()[j] in cols
    {
      if Required()[k] !in cols {
        assert Required()[k] in Required();
        return false;
      }
    }
    return true;
  }

  /** The required cells of a row, unless it is too short. */
  method ReadCells(cols: map<string, nat>, row: seq<string>) returns (cells: Option<seq<string>>)
    requires HasRequired(cols)
    ensures cells.Some? <==> LongEnough(cols, row)
    ensures cells.Some? ==> cells.value == Cells(cols, row)
  {
    var found: seq<string> := [];
    for k := 0 to |Required()|
      invariant |found| == k
      invariant forall j :: 0 <= j < k ==>
        Required()[j] in cols && cols[Required()[j]] < |row| && found[j] == row[cols[Required()[j]]]
    {
      assert Required()[k] in Required();
      if cols[Required()[k]] >= |row| {
        return None;
      }
      found := found + [row[cols[Required()[k]]]];
    }
    return Some(found);
  }

  method ReadRow(cols: map<string, nat>, row: seq<string>) returns (r: RowOutcome)
    requires HasRequired(cols)
    ensures r == ParseRow(cols, row)
  {
    var cells := ReadCells(cols, row);
    r := if cells.None? then Skip else ParseCells(cells.value);
  }

  method ReadRows(cols: map<string, nat>, rows: seq<seq<string>>) returns (results: Option<seq<DiskCounters>>)
    requires HasRequired(cols)
    ensures results == ParseRows(cols, rows)
  {
    var found: seq<DiskCounters> := [];
    ghost var outcomes := RowOutcomes(cols, rows);
    for i := 0 to |rows|
      invariant Kept(outcomes[..i]) == Some(found)
    {
      var row := ReadRow(cols, rows[i]);
      KeptOneMore(outcomes, i, found);
      match row {
        case Skip =>
        case Bad => return None;
        case Row(c) => found := found + [c];
      }
    }
    assert outcomes[..|rows|] == outcomes;
    return Some(found);
  }

  method ReadTable(cols: map<string, nat>, rows: seq<seq<string>>) returns (r: Outcome)
    ensures r == ParseTable(cols, rows)
  {
    var ok := CheckRequired(cols);
    if !ok {
      return MissingColumn;
    }
    var results := ReadRows(cols, rows);
    if results.None? {
      return BadNumber;
    }
    r := if results.value == [] then NoValidRows else Rows(results.value);
  }

  method ParseWmiCsv(records: seq<seq<string>>) returns (r: Outcome)
    ensures r == ParseRecords(records)
  {
    if |records| < 2 {
      return NoDataRows;
    }
    var cols := IndexColumns(records[0]);
    r := ReadTable(cols, records[1..]);
  }

  // ---- Columns ----

  /** A table is read row by row: only the outcome of each row matters. */
  lemma RowsAreKept(cols: map<string, nat>, rows: seq<seq<string>>, outcomes: seq<RowOutcome>)
    requires HasRequired(cols) && |outcomes| == |rows|
    requires forall i :: 0 <= i < |rows| ==> ParseRow(cols, rows[i]) == outcomes[i]
    ensures ParseRows(cols, rows) == Kept(outcomes)
  {
    assert RowOutcomes(cols, rows) == outcomes;
  }

  /** The column of a name is its last occurrence in the header. */
  lemma {:induction false} ColumnIsLast(names: seq<string>, name: string)
    ensures name in Columns(names) <==> name in names
    ensures name in Columns(names) ==>
      names[Columns(names)[name]] == name && forall j :: Columns(names)[name] < j < |names| ==> names[j] != name
  {
    if names != [] {
      var init := names[..|names| - 1];
      ColumnIsLast(init, name);
      assert names == init + [names[|names| - 1]];
    }
  }

  /** A row cut after m cells is read like the whole row if every required column is among them, and skipped
      otherwise: on ragged records the order of the columns matters. */
  lemma TruncatedRow(cols: map<string, nat>, row: seq<string>, m: nat)
    requires HasRequired(cols) && m <= |row| && LongEnough(cols, row)
    ensures ParseRow(cols, row[..m]) ==
      if forall name :: name in Required() ==> cols[name] < m then ParseRow(cols, row) else Skip
  {
    if forall name :: name in Required() ==> cols[name] < m {
      forall i | 0 <= i < |Required()| ensures Cells(cols, row[..m])[i] == Cells(cols, row)[i] {
        assert Required()[i] in Required();
      }
      assert Cells(cols, row[..m]) == Cells(cols, row);
    }
  }

  // ---- Column order ----

  /** p rearranges the columns 0..n. */
  ghost predicate IsPermutation(p: seq<nat>, n: nat) {
    && |p| == n && (forall j :: 0 <= j < n ==> p[j] < n)
    && (forall j, k :: 0 <= j < k < n ==> p[j] != p[k])
    && (forall i: nat :: i < n ==> i in p)
  }

  /** The row with its first columns rearranged; cells beyond the header stay where they are. */
  function PermuteRow(row: seq<string>, p: seq<nat>): (r: seq<string>)
    requires |p| <= |row| && forall j :: 0 <= j < |p| ==> p[j] < |p|
    ensures |r| == |row| && (forall j :: 0 <= j < |p| ==> r[j] == row[p[j]])
    ensures forall j :: |p| <= j < |row| ==> r[j] == row[j]
  {
    seq(|row|, j requires 0 <= j < |row| => if j < |p| then row[p[j]] else row[j])
  }

  ghost predicate AtLeast(records: seq<seq<string>>, n: nat) {
    forall i :: 0 <= i < |records| ==> |records[i]| >= n
  }

  function Permute(records: seq<seq<string>>, p: seq<nat>): (r: seq<seq<string>>)
    requires forall j :: 0 <= j < |p| ==> p[j] < |p|
    requires forall i :: 0 <= i < |records| ==> |p| <= |records[i]|
    ensures |r| == |records| && forall i :: 0 <= i < |records| ==> r[i] == PermuteRow(records[i], p)
  {
    seq(|records|, i requires 0 <= i < |records| => PermuteRow(records[i], p))
  }

  lemma PermutedNames(names: seq<string>, p: seq<nat>, name: string)
    requires IsPermutation(p, |names|)
    ensures name in names <==> name in PermuteRow(names, p)
  {
    var moved := PermuteRow(names, p);
    if i :| 0 <= i < |names| && names[i] == name {
      assert i in p;
      var j :| 0 <= j < |p| && p[j] == i;
      assert moved[j] == names[i];
    }
  }

  /** The cell read for a column of this name. */
  function CellRead(names: seq<string>, row: seq<string>, name: string): string
    requires name in Columns(names) && |row| >= |names|
  {
    row[Columns(names)[name]]
  }

  /** All columns of this name hold the same cell. */
  ghost predicate RepeatsAgree(names: seq<string>, row: seq<string>, name: string)
    requires |row| >= |names|
  {
    forall i, j :: 0 <= i < |names| && 0 <= j < |names| && names[i] == name && names[j] == name ==> row[i] == row[j]
  }

  ghost predicate SameCell(names: seq<string>, row: seq<string>, p: seq<nat>, name: string)
    requires IsPermutation(p, |names|) && name in Columns(names) && |row| >= |names|
  {
    && name in Columns(PermuteRow(names, p))
    && CellRead(PermuteRow(names, p), PermuteRow(row, p), name) == CellRead(names, row, name)
  }

  /** The permuted header finds a column at the new place of one of its occurrences. */
  lemma ColumnMoves(names: seq<string>, p: seq<nat>, name: string)
    requires IsPermutation(p, |names|)
    ensures name in Columns(names) <==> name in Columns(PermuteRow(names, p))
    ensures name in Columns(names) ==> names[p[Columns(PermuteRow(names, p))[name]]] == name
  {
    PermutedNames(names, p, name);
    ColumnIsLast(names, name);
    var moved := PermuteRow(names, p);
    ColumnIsLast(moved, name);
    if name in Columns(moved) {
      var c := Columns(moved)[name];
      assert moved[c] == names[p[c]];
    }
  }

  lemma CellMoves(names: seq<string>, row: seq<string>, p: seq<nat>, name: string)
    requires IsPermutation(p, |names|) && name in Columns(names) && |row| >= |names| && RepeatsAgree(names, row, name)
    ensures SameCell(names, row, p, name)
  {
    ColumnMoves(names, p, name);
    ColumnIsLast(names, name);
  }

  function Swap(n: nat, i: nat, j: nat): (p: seq<nat>)
    requires i < n && j < n
    ensures |p| == n
  {
    seq(n, k => if k == i then j else if k == j then i else k)
  }

  lemma SwapPermutes(n: nat, i: nat, j: nat)
    requires i < n && j < n
    ensures IsPermutation(Swap(n, i, j), n)
  {
    var p := Swap(n, i, j);
    forall k: nat | k < n ensures k in p {
      assert p[p[k]] == k;
    }
  }

  /** Exchanging an occurrence of a name with its last one makes the reader read that occurrence. */
  lemma SwappedCell(names: seq<string>, row: seq<string>, name: string, i: nat)
    requires i < |names| <= |row| && names[i] == name && name in Columns(names)
    ensures var p := Swap(|names|, i, Columns(names)[name]);
      && IsPermutation(p, |names|) && name in Columns(PermuteRow(names, p))
      && CellRead(PermuteRow(names, p), PermuteRow(row, p), name) == row[i]
  {
    var last := Columns(names)[name];
    var p := Swap(|names|, i, last);
    SwapPermutes(|names|, i, last);
    ColumnIsLast(names, name);
    var moved := PermuteRow(names, p);
    assert moved == names;
    assert PermuteRow(row, p)[last] == row[i];
  }

  /** This cell is read in every order of the columns. */
  ghost predicate OrderFree(names: seq<string>, row: seq<string>, name: string)
    requires name in Columns(names) && |row| >= |names|
  {
    forall p :: IsPermutation(p, |names|) ==> SameCell(names, row, p, name)
  }

  /** A column's cell is the same in every order of the columns if and only if all columns of its name hold the
      same cell. */
  lemma CellIsOrderFreeIff(names: seq<string>, row: seq<string>, name: string)
    requires name in Columns(names) && |row| >= |names|
    ensures OrderFree(names, row, name) <==> RepeatsAgree(names, row, name)
  {
    if OrderFree(names, row, name) {
      forall i | 0 <= i < |names| && names[i] == name ensures row[i] == CellRead(names, row, name) {
        SwappedCell(names, row, name, i);
        assert SameCell(names, row, Swap(|names|, i, Columns(names)[name]), name);
      }
    }
    if RepeatsAgree(names, row, name) {
      forall p | IsPermutation(p, |names|) ensures SameCell(names, row, p, name) {
        CellMoves(names, row, p, name);
      }
    }
  }

  /** No required column is repeated with different cells. */
  ghost predicate RequiredAgree(names: seq<string>, row: seq<string>)
    requires |row| >= |names|
  {
    forall name :: name in Required() ==> RepeatsAgree(names, row, name)
  }

  ghost predicate SameCells(names: seq<string>, row: seq<string>, p: seq<nat>)
    requires IsPermutation(p, |names|) && HasRequired(Columns(names)) && |row| >= |names|
  {
    forall name :: name in Required() ==> SameCell(names, row, p, name)
  }

  /** What is read from a row at least as long as its header is the same in every order of the columns if and only
      if no required column is repeated with different cells. */
  lemma RowIsOrderFreeIff(names: seq<string>, row: seq<string>)
    requires HasRequired(Columns(names)) && |row| >= |names|
    ensures (forall p :: IsPermutation(p, |names|) ==> SameCells(names, row, p)) <==> RequiredAgree(names, row)
  {
    forall name | name in Required()
      ensures OrderFree(names, row, name) <==> RepeatsAgree(names, row, name)
    {
      CellIsOrderFreeIff(names, row, name);
    }
    if forall p :: IsPermutation(p, |names|) ==> SameCells(names, row, p) {
      forall name | name in Required() ensures RepeatsAgree(names, row, name) {
        forall p | IsPermutation(p, |names|) ensures SameCell(names, row, p, name) {
          assert SameCells(names, row, p);
        }
      }
    }
  }

  lemma HeaderFits(names: seq<string>, row: seq<string>)
    requires HasRequired(Columns(names)) && |row| >= |names|
    ensures LongEnough(Columns(names), row)
  {
  }

  lemma CellMovesAt(names: seq<string>, row: seq<string>, p: seq<nat>, i: nat, name: string)
    requires IsPermutation(p, |names|) && |row| >= |names| && RequiredAgree(names, row)
    requires i < |Required()| && name == Required()[i]
    requires HasRequired(Columns(names)) && LongEnough(Columns(names), row)
    requires HasRequired(Columns(PermuteRow(names, p))) && LongEnough(Columns(PermuteRow(names, p)), PermuteRow(row, p))
    ensures Cells(Columns(PermuteRow(names, p)), PermuteRow(row, p))[i] == Cells(Columns(names), row)[i]
  {
    assert name in Required();
    CellMoves(names, row, p, name);
  }

  lemma CellsMove(names: seq<string>, row: seq<string>, p: seq<nat>)
    requires IsPermutation(p, |names|) && |row| >= |names| && RequiredAgree(names, row)
    requires HasRequired(Columns(names)) && HasRequired(Columns(PermuteRow(names, p)))
    ensures LongEnough(Columns(names), row) && LongEnough(Columns(PermuteRow(names, p)), PermuteRow(row, p))
    ensures Cells(Columns(PermuteRow(names, p)), PermuteRow(row, p)) == Cells(Columns(names), row)
  {
    HeaderFits(names, row);
    HeaderFits(PermuteRow(names, p), PermuteRow(row, p));
    forall i: nat | i < |Required()|
      ensures Cells(Columns(PermuteRow(names, p)), PermuteRow(row, p))[i] == Cells(Columns(names), row)[i]
    {
      CellMovesAt(names, row, p, i, Required()[i]);
    }
  }

  lemma RowMoves(names: seq<string>, row: seq<string>, p: seq<nat>)
    requires IsPermutation(p, |names|) && |row| >= |names| && RequiredAgree(names, row)
    requires HasRequired(Columns(names)) && HasRequired(Columns(PermuteRow(names, p)))
    ensures ParseRow(Columns(PermuteRow(names, p)), PermuteRow(row, p)) == ParseRow(Columns(names), row)
  {
    CellsMove(names, row, p);
  }

  ghost predicate RowsAgree(names: seq<string>, rows: seq<seq<string>>)
    requires AtLeast(rows, |names|)
  {
    forall i :: 0 <= i < |rows| ==> RequiredAgree(names, rows[i])
  }

  lemma SameOutcomes(cols: map<string, nat>, rows: seq<seq<string>>, cols': map<string, nat>, rows': seq<seq<string>>)
    requires HasRequired(cols) && HasRequired(cols') && |rows| == |rows'|
    requires forall i :: 0 <= i < |rows| ==> ParseRow(cols, rows[i]) == ParseRow(cols', rows'[i])
    ensures RowOutcomes(cols, rows) == RowOutcomes(cols', rows')
  {
  }

  lemma RowsMove(names: seq<string>, rows: seq<seq<string>>, p: seq<nat>)
    requires IsPermutation(p, |names|) && AtLeast(rows, |names|) && RowsAgree(names, rows)
    requires HasRequired(Columns(names)) && HasRequired(Columns(PermuteRow(names, p)))
    ensures RowOutcomes(Columns(PermuteRow(names, p)), Permute(rows, p)) == RowOutcomes(Columns(names), rows)
  {
    var cols, cols', rows' := Columns(names), Columns(PermuteRow(names, p)), Permute(rows, p);
    forall i | 0 <= i < |rows| ensures ParseRow(cols, rows[i]) == ParseRow(cols', rows'[i]) {
      assert RequiredAgree(names, rows[i]);
      RowMoves(names, rows[i], p);
    }
    SameOutcomes(cols, rows, cols', rows');
  }

  lemma RequiredMove(names: seq<string>, p: seq<nat>)
    requires IsPermutation(p, |names|)
    ensures HasRequired(Columns(names)) <==> HasRequired(Columns(PermuteRow(names, p)))
  {
    forall name | name in Required() ensures name in Columns(names) <==> name in Columns(PermuteRow(names, p)) {
      ColumnMoves(names, p, name);
    }
  }

  /** Any order of the columns gives the same counters, or the same error, when no row is shorter than the header
      and none repeats a required column with different cells. */
  lemma ColumnOrderIsIrrelevant(records: seq<seq<string>>, p: seq<nat>)
    requires records != [] && AtLeast(records, |records[0]|) && IsPermutation(p, |records[0]|)
    requires AtLeast(records[1..], |Names(records[0])|) && RowsAgree(Names(records[0]), records[1..])
    ensures ParseRecords(Permute(records, p)) == ParseRecords(records)
  {
    var names := Names(records[0]);
    assert Names(PermuteRow(records[0], p)) == PermuteRow(names, p);
    RequiredMove(names, p);
    assert Permute(records, p)[1..] == Permute(records[1..], p);
    if HasRequired(Columns(names)) { RowsMove(names, records[1..], p); }
  }

  // ---- Round trip ----

  /** Names the Windows counters carry: not blank, not the total, without white space around them. */
  predicate IsDiskName(name: string) {
    name != "" && TrimSpace(name) == name && !EqualFold(name, "_Total")
  }

  /** The text of a required column. */
  function Field(c: DiskCounters, k: nat): string
    requires k < 6
  {
    if k == 0 then c.name
    else Decimal([c.rdQueueLen, c.wrQueueLen, c.rdOps, c.wrOps, c.timestamp100ns][k - 1])
  }

  /** The row holds these counters in its required columns, wherever those are; other cells may hold anything. */
  ghost predicate Prints(cols: map<string, nat>, row: seq<string>, c: DiskCounters)
    requires HasRequired(cols)
  {
    LongEnough(cols, row) && forall k :: 0 <= k < |Required()| ==> Cells(cols, row)[k] == Field(c, k)
  }

  /** Which required column a header names. */
  function Position(name: string, k: nat): (r: nat)
    requires k <= 6
    ensures k <= r <= 6 && (r < 6 ==> Required()[r] == name)
    ensures forall j :: k <= j < r ==> Required()[j] != name
    decreases 6 - k
  {
    if k == 6 || Required()[k] == name then k else Position(name, k + 1)
  }

  /** Printing counters under a header: required columns by name, the others with whatever text. */
  function PrintRow(names: seq<string>, c: DiskCounters, other: seq<string>): (row: seq<string>)
    requires |other| == |names|
    ensures |row| == |names|
  {
    seq(|names|, i requires 0 <= i < |names| =>
      if Position(names[i], 0) < 6 then Field(c, Position(names[i], 0)) else other[i])
  }

  lemma RequiredDistinct(j: nat, k: nat)
    requires j < 6 && k < 6 && Required()[j] == Required()[k]
    ensures j == k
  {
    var r := Required();
    assert |r[0]| == 4 && |r[1]| == 22 && |r[2]| == 23 && |r[3]| == 15 && |r[4]| == 16 && |r[5]| == 18;
  }

  /** What is printed under a header with the required columns holds the counters, in whatever order. */
  lemma PrintRowPrints(names: seq<string>, c: DiskCounters, other: seq<string>)
    requires |other| == |names| && HasRequired(Columns(names))
    ensures Prints(Columns(names), PrintRow(names, c, other), c)
  {
    var cols, row := Columns(names), PrintRow(names, c, other);
    forall k | 0 <= k < |Required()| ensures Cells(cols, row)[k] == Field(c, k) {
      var name := Required()[k];
      assert name in Required();
      ColumnIsLast(names, name);
      RequiredDistinct(Position(name, 0), k);
    }
  }

  ghost predicate IsTotal(cols: map<string, nat>, row: seq<string>)
    requires HasRequired(cols)
  {
    LongEnough(cols, row) && EqualFold(TrimSpace(Cells(cols, row)[0]), "_Total")
  }

  lemma NumberReadsBack(n: u64)
    ensures ParseUint(TrimSpace(Decimal(n)), TWO_64) == Some(n)
  {
    TrimSpaceOfDecimal(n);
    ParseUintOfDecimal(n, TWO_64);
  }

  lemma PrintedCellsReadBack(cells: seq<string>, c: DiskCounters)
    requires |cells| == 6 && (forall k :: 0 <= k < 6 ==> cells[k] == Field(c, k)) && IsDiskName(c.name)
    ensures ParseCells(cells) == Row(c)
  {
    assert cells[0] == Field(c, 0) && cells[1] == Field(c, 1) && cells[2] == Field(c, 2);
    assert cells[3] == Field(c, 3) && cells[4] == Field(c, 4) && cells[5] == Field(c, 5);
    NumberReadsBack(c.rdQueueLen);
    NumberReadsBack(c.wrQueueLen);
    NumberReadsBack(c.rdOps);
    NumberReadsBack(c.wrOps);
    NumberReadsBack(c.timestamp100ns);
  }

  lemma PrintedRowReadsBack(cols: map<string, nat>, row: seq<string>, c: DiskCounters)
    requires HasRequired(cols) && Prints(cols, row, c) && IsDiskName(c.name)
    ensures ParseRow(cols, row) == Row(c)
  {
    PrintedCellsReadBack(Cells(cols, row), c);
  }

  /** A row of the output: a disk's counters, or the total over all disks. */
  datatype Line = Disk(counters: DiskCounters) | Total

  function Disks(lines: seq<Line>): seq<DiskCounters> {
    if lines == [] then []
    else
      var last := lines[|lines| - 1];
      Disks(lines[..|lines| - 1]) + if last.Disk? then [last.counters] else []
  }

  ghost predicate IsLine(cols: map<string, nat>, row: seq<string>, line: Line)
    requires HasRequired(cols)
  {
    match line
    case Disk(c) => Prints(cols, row, c) && IsDiskName(c.name)
    case Total => IsTotal(cols, row)
  }

  lemma {:induction false} LinesAreKept(lines: seq<Line>)
    ensures Kept(Outcomes(lines)) == Some(Disks(lines))
  {
    if lines != [] {
      LinesAreKept(lines[..|lines| - 1]);
      assert Outcomes(lines)[..|lines| - 1] == Outcomes(lines[..|lines| - 1]);
      assert Disks(lines[..|lines| - 1]) + [] == Disks(lines[..|lines| - 1]);
    }
  }

  function Outcomes(lines: seq<Line>): seq<RowOutcome> {
    seq(|lines|, i requires 0 <= i < |lines| => if lines[i].Disk? then Row(lines[i].counters) else Skip)
  }

  lemma PrintedLinesReadBack(cols: map<string, nat>, rows: seq<seq<string>>, lines: seq<Line>)
    requires HasRequired(cols) && |rows| == |lines| && Disks(lines) != []
    requires forall i :: 0 <= i < |lines| ==> IsLine(cols, rows[i], lines[i])
    ensures ParseTable(cols, rows) == Rows(Disks(lines))
  {
    forall i | 0 <= i < |rows| ensures ParseRow(cols, rows[i]) == Outcomes(lines)[i] {
      assert IsLine(cols, rows[i], lines[i]);
      if lines[i].Disk? {
        PrintedRowReadsBack(cols, rows[i], lines[i].counters);
      }
    }
    RowsAreKept(cols, rows, Outcomes(lines));
    LinesAreKept(lines);
  }

  /** Counters printed under any header that names the required columns, in any order, with further columns and
      total rows among them, are read back in order. */
  lemma PrintedCountersReadBack(records: seq<seq<string>>, lines: seq<Line>)
    requires |records| == |lines| + 1 && Disks(lines) != [] && HasRequired(Columns(Names(records[0])))
    requires forall i :: 0 <= i < |lines| ==> IsLine(Columns(Names(records[0])), records[1..][i], lines[i])
    ensures ParseRecords(records) == Rows(Disks(lines))
  {
    PrintedLinesReadBack(Columns(Names(records[0])), records[1..], lines);
    assert lines != [];
  }

  // ---- A table whose column order matters ----

  /** The required columns, with the name column once more at the end. */
  function TwoNames(): seq<string> { Required() + [Required()[0]] }

  /** Counters under that header, with another disk's name in the repeated column. */
  function TwoNamedRow(c: DiskCounters, other: string): (row: seq<string>)
    ensures |row| == 7 && row[6] == other && forall k :: 0 <= k < 6 ==> row[k] == Field(c, k)
  {
    seq(7, k requires 0 <= k < 7 => if k < 6 then Field(c, k) else other)
  }

  lemma TwoNamesColumns(k: nat)
    requires k < 6
    ensures Required()[k] in Columns(TwoNames()) && Columns(TwoNames())[Required()[k]] == if k == 0 then 6 else k
  {
    var names, name := TwoNames(), Required()[k];
    assert names[k] == name && names[6] == Required()[0];
    ColumnIsLast(names, name);
    var c := Columns(names)[name];
    RequiredDistinct(if c < 6 then c else 0, k);
  }

  lemma TwoNamesRequired()
    ensures HasRequired(Columns(TwoNames()))
  {
    forall name | name in Required() ensures name in Columns(TwoNames()) {
      var k :| 0 <= k < 6 && Required()[k] == name;
      TwoNamesColumns(k);
    }
  }

  lemma OneDisk(lines: seq<Line>)
    requires |lines| == 1 && lines[0].Disk?
    ensures Disks(lines) == [lines[0].counters]
  {
    var before := lines[..|lines| - 1];
    assert before == [] && Disks(before) == [];
  }

  lemma LastNamePrints(row: seq<string>, c: DiskCounters)
    requires |row| == 7 && row[6] == c.name && forall k :: 1 <= k < 6 ==> row[k] == Field(c, k)
    ensures HasRequired(Columns(TwoNames())) && Prints(Columns(TwoNames()), row, c)
  {
    TwoNamesRequired();
    forall k | 0 <= k < |Required()|
      ensures Columns(TwoNames())[Required()[k]] < |row| && row[Columns(TwoNames())[Required()[k]]] == Field(c, k)
    {
      TwoNamesColumns(k);
    }
  }

  /** The row is read with whatever name the last column holds. */
  lemma LastNameIsRead(row: seq<string>, c: DiskCounters)
    requires |row| == 7 && row[6] == c.name && (forall k :: 1 <= k < 6 ==> row[k] == Field(c, k)) && IsDiskName(c.name)
    ensures HasRequired(Columns(TwoNames())) && ParseTable(Columns(TwoNames()), [row]) == Rows([c])
  {
    LastNamePrints(row, c);
    OneDisk([Disk(c)]);
    PrintedLinesReadBack(Columns(TwoNames()), [row], [Disk(c)]);
  }

  /** One table, two orders, two disks: exchanging the two name columns changes what is read. */
  lemma ColumnOrderCanMatter(c: DiskCounters, other: string)
    requires IsDiskName(c.name) && IsDiskName(other) && other != c.name
    ensures var row, p := TwoNamedRow(c, other), Swap(7, 0, 6);
      && PermuteRow(TwoNames(), p) == TwoNames()
      && ParseTable(Columns(TwoNames()), [row]) == Rows([c.(name := other)])
      && ParseTable(Columns(TwoNames()), [PermuteRow(row, p)]) == Rows([c])
  {
    var row, p := TwoNamedRow(c, other), Swap(7, 0, 6);
    SwapPermutes(7, 0, 6);
    LastNameIsRead(row, c.(name := other));
    LastNameIsRead(PermuteRow(row, p), c);
  }

  // ---- Columns by name ----

  lemma RequiredByName()
    ensures Required()[0] == "name" && Required()[1] == "avgdiskreadqueuelength"
    ensures Required()[2] == "avgdiskwritequeuelength" && Required()[3] == "diskreadspersec"
    ensures Required()[4] == "diskwritespersec" && Required()[5] == "timestamp_sys100ns"
  {
  }

  /** The cell a column holds, printed or surrounded by white space, is this number. */
  ghost predicate Holds(cols: map<string, nat>, row: seq<string>, column: string, n: nat) {
    column in cols && cols[column] < |row| && Counter(row[cols[column]]) == Some(n)
  }

  /** A row gives these counters exactly if each is in the column of its name. */
  ghost predicate HoldsAll(cols: map<string, nat>, row: seq<string>, c: DiskCounters) {
    && Holds(cols, row, "avgdiskreadqueuelength", c.rdQueueLen)
    && Holds(cols, row, "avgdiskwritequeuelength", c.wrQueueLen)
    && Holds(cols, row, "diskreadspersec", c.rdOps) && Holds(cols, row, "diskwritespersec", c.wrOps)
    && Holds(cols, row, "timestamp_sys100ns", c.timestamp100ns)
  }

  ghost predicate NamedBy(cols: map<string, nat>, row: seq<string>, name: string) {
    && "name" in cols && cols["name"] < |row| && TrimSpace(row[cols["name"]]) == name
    && name != "" && !EqualFold(name, "_Total")
  }

  // ---- What a table comes to ----

  lemma {:induction false} KeptIff(outcomes: seq<RowOutcome>)
    ensures Kept(outcomes).None? <==> exists i :: 0 <= i < |outcomes| && outcomes[i].Bad?
  {
    if outcomes != [] {
      var n, init := |outcomes| - 1, outcomes[..|outcomes| - 1];
      KeptIff(init);
      assert forall i :: 0 <= i < n ==> init[i] == outcomes[i];
    }
  }

  ghost function RowsBelow(outcomes: seq<RowOutcome>, n: nat): nat -> bool {
    (p: nat) => p < n && p < |outcomes| && outcomes[p].Row?
  }

  ghost function RowAlone(outcomes: seq<RowOutcome>, n: nat): nat -> bool {
    (p: nat) => p == n && p < |outcomes| && outcomes[p].Row?
  }

  ghost function IsRowOf(outcomes: seq<RowOutcome>): (nat, DiskCounters) -> bool {
    (p: nat, c: DiskCounters) => p < |outcomes| && outcomes[p] == Row(c)
  }

  function OneKept(r: RowOutcome): seq<DiskCounters> { if r.Row? then [r.counters] else [] }

  lemma OneKeptAt(outcomes: seq<RowOutcome>, n: nat) returns (at: seq<nat>)
    requires n < |outcomes|
    ensures Picks(Less(), RowAlone(outcomes, n), IsRowOf(outcomes), at, OneKept(outcomes[n]))
  {
    if outcomes[n].Row? {
      at := [n];
      PicksOne(Less(), RowAlone(outcomes, n), IsRowOf(outcomes), n, outcomes[n].counters);
    } else {
      at := [];
      PicksNone(Less(), RowAlone(outcomes, n), IsRowOf(outcomes));
    }
  }

  lemma KeptSnoc(outcomes: seq<RowOutcome>, n: nat)
    requires n < |outcomes| && Kept(outcomes[..n + 1]).Some?
    ensures Kept(outcomes[..n]).Some?
    ensures Kept(outcomes[..n + 1]).value == Kept(outcomes[..n]).value + OneKept(outcomes[n])
  {
    assert outcomes[..n + 1][..n] == outcomes[..n];
    assert Kept(outcomes[..n]).Some? ==> Kept(outcomes[..n]).value + [] == Kept(outcomes[..n]).value;
  }

  lemma {:induction false} KeptAt(outcomes: seq<RowOutcome>, n: nat) returns (at: seq<nat>)
    requires n <= |outcomes| && Kept(outcomes[..n]).Some?
    ensures Picks(Less(), RowsBelow(outcomes, n), IsRowOf(outcomes), at, Kept(outcomes[..n]).value)
  {
    if n == 0 {
      at := [];
      PicksNone(Less(), RowsBelow(outcomes, n), IsRowOf(outcomes));
    } else {
      KeptSnoc(outcomes, n - 1);
      var init := KeptAt(outcomes, n - 1);
      var more := OneKeptAt(outcomes, n - 1);
      PicksConcat(Less(), RowsBelow(outcomes, n - 1), RowAlone(outcomes, n - 1), RowsBelow(outcomes, n),
                  IsRowOf(outcomes), init, Kept(outcomes[..n - 1]).value, more, OneKept(outcomes[n - 1]));
      at := init + more;
    }
  }

  /** One bad number fails the whole table, and only that does. */
  lemma BadNumberIff(cols: map<string, nat>, rows: seq<seq<string>>)
    requires HasRequired(cols)
    ensures ParseTable(cols, rows) == BadNumber <==> exists i :: 0 <= i < |rows| && ParseRow(cols, rows[i]).Bad?
  {
    var outcomes := RowOutcomes(cols, rows);
    KeptIff(outcomes);
    assert forall i :: 0 <= i < |rows| ==> outcomes[i] == ParseRow(cols, rows[i]);
  }

  /** A table's counters are those of its rows that give any, in order; there are none exactly if no row does. */
  lemma RowsAreRead(cols: map<string, nat>, rows: seq<seq<string>>) returns (at: seq<nat>, cs: seq<DiskCounters>)
    requires HasRequired(cols) && ParseTable(cols, rows) != BadNumber
    ensures ParseTable(cols, rows) == if cs == [] then NoValidRows else Rows(cs)
    ensures |at| == |cs| && (forall i, j :: 0 <= i < j < |at| ==> at[i] < at[j])
    ensures forall p: nat :: p in at <==> p < |rows| && ParseRow(cols, rows[p]).Row?
    ensures forall j :: 0 <= j < |at| ==> at[j] < |rows| && ParseRow(cols, rows[at[j]]) == Row(cs[j])
  {
    var outcomes := RowOutcomes(cols, rows);
    assert outcomes[..|outcomes|] == outcomes;
    cs := Kept(outcomes).value;
    at := KeptAt(outcomes, |outcomes|);
    ReadAt(cols, rows, outcomes, at, cs);
  }

  lemma ReadAt(cols: map<string, nat>, rows: seq<seq<string>>, outcomes: seq<RowOutcome>, at: seq<nat>,
               cs: seq<DiskCounters>)
    requires HasRequired(cols) && |outcomes| == |rows|
    requires forall i :: 0 <= i < |rows| ==> outcomes[i] == ParseRow(cols, rows[i])
    requires Picks(Less(), RowsBelow(outcomes, |outcomes|), IsRowOf(outcomes), at, cs)
    ensures |at| == |cs| && (forall i, j :: 0 <= i < j < |at| ==> at[i] < at[j])
    ensures forall p: nat :: p in at <==> p < |rows| && ParseRow(cols, rows[p]).Row?
    ensures forall j :: 0 <= j < |at| ==> at[j] < |rows| && ParseRow(cols, rows[at[j]]) == Row(cs[j])
  {
    forall i, j | 0 <= i < j < |at| ensures at[i] < at[j] { assert Less()(at[i], at[j]); }
    forall p: nat ensures p in at <==> p < |rows| && ParseRow(cols, rows[p]).Row? {
      assert p in at <==> RowsBelow(outcomes, |outcomes|)(p);
    }
    forall j | 0 <= j < |at| ensures at[j] < |rows| && ParseRow(cols, rows[at[j]]) == Row(cs[j]) {
      assert IsRowOf(outcomes)(at[j], cs[j]);
    }
  }

  /** The column holds no number. */
  ghost predicate NoNumber(cols: map<string, nat>, row: seq<string>, column: string) {
    forall n: nat :: !Holds(cols, row, column, n)
  }

  lemma NoNumberIff(cols: map<string, nat>, row: seq<string>, column: string)
    requires column in cols && cols[column] < |row|
    ensures NoNumber(cols, row, column) <==> Counter(row[cols[column]]).None?
  {
    var r := Counter(row[cols[column]]);
    if r.Some? { assert Holds(cols, row, column, r.value); }
  }

  lemma CellsByName(cols: map<string, nat>, row: seq<string>)
    requires HasRequired(cols) && LongEnough(cols, row)
    ensures forall i :: 0 <= i < 6 ==> Required()[i] in cols && cols[Required()[i]] < |row|
    ensures Cells(cols, row) ==
      [row[cols[Required()[0]]], row[cols[Required()[1]]], row[cols[Required()[2]]], row[cols[Required()[3]]],
       row[cols[Required()[4]]], row[cols[Required()[5]]]]
  {
    assert forall i :: 0 <= i < 6 ==> Required()[i] in Required();
  }

  lemma BadCellsIff(cells: seq<string>)
    requires |cells| == 6
    ensures ParseCells(cells).Bad? <==>
      && TrimSpace(cells[0]) != "" && !EqualFold(TrimSpace(cells[0]), "_Total")
      && (Counter(cells[1]).None? || Counter(cells[2]).None? || Counter(cells[3]).None? || Counter(cells[4]).None? ||
          Counter(cells[5]).None?)
  {
  }

  /** A row is bad exactly if it is long enough and named and one of its counters is no number. */
  lemma BadRowIff(cols: map<string, nat>, row: seq<string>)
    requires HasRequired(cols) && LongEnough(cols, row)
    ensures ParseRow(cols, row).Bad? <==>
      && (exists name :: NamedBy(cols, row, name))
      && (NoNumber(cols, row, "avgdiskreadqueuelength") || NoNumber(cols, row, "avgdiskwritequeuelength") ||
          NoNumber(cols, row, "diskreadspersec") || NoNumber(cols, row, "diskwritespersec") ||
          NoNumber(cols, row, "timestamp_sys100ns"))
  {
    RequiredByName();
    CellsByName(cols, row);
    BadCellsIff(Cells(cols, row));
    forall i | 1 <= i < 6
      ensures NoNumber(cols, row, Required()[i]) <==> Counter(row[cols[Required()[i]]]).None?
    {
      NoNumberIff(cols, row, Required()[i]);
    }
    var name := TrimSpace(row[cols["name"]]);
    assert name != "" && !EqualFold(name, "_Total") ==> NamedBy(cols, row, name);
  }

  lemma ReadIsHeld(cols: map<string, nat>, row: seq<string>, c: DiskCounters)
    requires HasRequired(cols) && ParseRow(cols, row) == Row(c)
    ensures NamedBy(cols, row, c.name) && HoldsAll(cols, row, c)
  {
    RequiredByName();
    var cells := Cells(cols, row);
    assert cells[0] == row[cols["name"]] && cells[1] == row[cols["avgdiskreadqueuelength"]];
    assert cells[2] == row[cols["avgdiskwritequeuelength"]] && cells[3] == row[cols["diskreadspersec"]];
    assert cells[4] == row[cols["diskwritespersec"]] && cells[5] == row[cols["timestamp_sys100ns"]];
  }

  lemma HeldIsRead(cols: map<string, nat>, row: seq<string>, c: DiskCounters)
    requires HasRequired(cols) && NamedBy(cols, row, c.name) && HoldsAll(cols, row, c)
    ensures ParseRow(cols, row) == Row(c)
  {
    RequiredByName();
    assert LongEnough(cols, row);
    var cells := Cells(cols, row);
    assert cells[0] == row[cols["name"]] && cells[1] == row[cols["avgdiskreadqueuelength"]];
    assert cells[2] == row[cols["avgdiskwritequeuelength"]] && cells[3] == row[cols["diskreadspersec"]];
    assert cells[4] == row[cols["diskwritespersec"]] && cells[5] == row[cols["timestamp_sys100ns"]];
  }
}
