/** The conflict map: the top claims against the covering outlets, one symbol per cell. */
module OutletMatrix {
  import opened Seqs
  import opened Text
  import opened Wrappers
  import opened AnalysisApi

  const MaxRows := 5

  predicate KnownStance(stance: string)
  {
    stance == "supports" || stance == "refutes" || stance == "neutral" || stance == "not_mentioned"
  }

  /** The four stance symbols; anything else shows "?". */
  function StanceSymbol(stance: string): (symbol: string)
    ensures symbol == "?" <==> !KnownStance(stance)
  {
    match stance
    case "supports" => "\U{2713}"
    case "refutes" => "\U{2717}"
    case "neutral" => "\U{25CB}"
    case "not_mentioned" => "\U{2014}"
    case _ => "?"
  }

  function StanceColor(stance: string): (color: string)
    ensures color == "text-gray-400" <==> !KnownStance(stance)
  {
    match stance
    case "supports" => "text-green-600"
    case "refutes" => "text-red-600"
    case "neutral" => "text-gray-500"
    case "not_mentioned" => "text-yellow-600"
    case _ => "text-gray-400"
  }

  /** Different known stances are told apart by their symbols. */
  lemma SymbolsDistinguishStances(a: string, b: string)
    requires KnownStance(a) && KnownStance(b) && a != b
    ensures StanceSymbol(a) != StanceSymbol(b) && StanceColor(a) != StanceColor(b)
  {
  }

  datatype Cell = Cell(symbol: string, color: string)

  /** No stance for the outlet gives a grey "?", which no recorded stance shares. */
  const NoStanceCell := Cell("?", "text-gray-300")

  /** The cell for a claim and an outlet: its first stance for the outlet, shown by symbol. */
  function CellFor(claim: Claim, domain: string): (cell: Cell)
    ensures cell == NoStanceCell <==> FindStance(claim.view.stances, domain).None?
  {
    match FindStance(claim.view.stances, domain)
    case Some(s) => Cell(StanceSymbol(s.stance), StanceColor(s.stance))
    case None => NoStanceCell
  }

  /** The column header: the domain without its first ".com". */
  function ColumnHeader(domain: string): string
  {
    ReplaceFirst(domain, ".com", "")
  }

  /** A domain "<name>.com" heads its column as "<name>"; a domain without ".com" as itself. */
  lemma ColumnHeaderOfDomain(name: string)
    requires !Includes(name, ".com")
    ensures ColumnHeader(name + ".com") == name
    ensures ColumnHeader(name) == name
  {
    assert ".com"[1..] == "com";
    ReplaceFirstTrailing(name, ".com");
  }

  datatype Row = Row(caption: string, claimText: string, cells: seq<Cell>)

  function RowFor(claim: Claim, idx: nat, sources: seq<Source>): (row: Row)
    ensures |row.cells| == |sources|
    ensures forall j :: 0 <= j < |sources| ==> row.cells[j] == CellFor(claim, sources[j].domain)
  {
    Row("Claim " + NatToString(idx + 1), claim.view.text,
        seq(|sources|, j requires 0 <= j < |sources| => CellFor(claim, sources[j].domain)))
  }

  /** The table body: one row for each of the first five claims, one cell per source. */
  function Matrix(claims: seq<Claim>, sources: seq<Source>): (rows: seq<Row>)
    ensures |rows| == if |claims| < MaxRows then |claims| else MaxRows
    ensures forall i :: 0 <= i < |rows| ==> rows[i] == RowFor(claims[i], i, sources)
  {
    var top := Take(claims, MaxRows);
    seq(|top|, i requires 0 <= i < |top| => RowFor(top[i], i, sources))
  }

  /** One claim and one outlet: the map's cell and the CSV cell come from the same stance.
      Where the claim has none for the outlet, the CSV says "not_mentioned" while the map shows
      a grey "?" rather than the "not mentioned" dash. */
  lemma CellAgreesWithStanceCell(claim: Claim, domain: string)
    ensures CellFor(claim, domain) == NoStanceCell ==> StanceCell(claim, domain) == "not_mentioned"
    ensures CellFor(claim, domain) != NoStanceCell ==> CellFor(claim, domain).symbol == StanceSymbol(StanceCell(claim, domain))
  {
  }

  /** The same across the whole table: cell (i, j) of the map against cell (i + 1, 2 + j) of the
      CSV export. */
  lemma MatrixAgreesWithCsv(story: Story, i: nat, j: nat)
    requires i < |story.claims| && i < MaxRows && j < |story.sources|
    ensures Matrix(story.claims, story.sources)[i].cells[j] == NoStanceCell
            ==> CsvTable(story)[i + 1][2 + j] == "not_mentioned"
    ensures Matrix(story.claims, story.sources)[i].cells[j] != NoStanceCell
            ==> Matrix(story.claims, story.sources)[i].cells[j].symbol == StanceSymbol(CsvTable(story)[i + 1][2 + j])
  {
    var claim := story.claims[i];
    var domain := story.sources[j].domain;
    assert Matrix(story.claims, story.sources)[i].cells[j] == CellFor(claim, domain);
    assert CsvTable(story)[i + 1] == CsvRow(claim, story.sources);
    assert CsvRow(claim, story.sources)[2 + j] == StanceCell(claim, domain);
    CellAgreesWithStanceCell(claim, domain);
  }
}
