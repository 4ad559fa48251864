/** The data shaping of src/reports.py (ReportGenerator): the tables handed to
    the PDF builder, the columns handed to the spreadsheet writer, the
    spreadsheet column widths, and the output file names. */
module Reports {
  import opened Wrappers
  import opened Text
  import opened GroupBy
  import opened Database

  /** One table row, cell by cell, as text. */
  type Row = seq<string>

  const FieldHeader: Row := ["Campo", "Valor"]

  // ---------------------------------------------------------------- one client

  /** Labels of the single-client table, after its header. */
  const InfoLabels: seq<string> :=
    ["ID", "Nombre", "Email", "Teléfono", "Empresa", "Dirección", "Ciudad", "País", "Fecha de registro"]

  /** The columns shown with `or 'N/A'` in the single-client table, in order
      (rows 3 to 8). */
  const InfoFields: seq<ClientField> := [Email, Phone, Company, Address, City, Country]

  /** The single-client table of generate_client_report_pdf. */
  function ClientInfoTable(c: Client): (t: seq<Row>)
    ensures |t| == 10 && t[0] == FieldHeader
    ensures forall i :: 1 <= i < 10 ==> |t[i]| == 2 && t[i][0] == InfoLabels[i - 1]
    ensures t[1][1] == NatToString(c.id) && t[2][1] == c.name && t[9][1] == c.createdAt
    ensures forall k :: 0 <= k < |InfoFields| ==> t[3 + k][1] == OrNA(FieldValue(c, InfoFields[k]))
  {
    [ FieldHeader,
      ["ID", NatToString(c.id)],
      ["Nombre", c.name],
      ["Email", OrNA(Some(c.email))],
      ["Teléfono", OrNA(c.phone)],
      ["Empresa", OrNA(c.company)],
      ["Dirección", OrNA(c.address)],
      ["Ciudad", OrNA(c.city)],
      ["País", OrNA(c.country)],
      ["Fecha de registro", c.createdAt] ]
  }

  /** A row of `report_data`: field_name is NOT NULL, field_value may be NULL. */
  datatype ReportDatum = ReportDatum(fieldName: string, fieldValue: Option<string>)

  /** The report-data table: the header, then one row per entry in input
      order, an empty or NULL value shown as "N/A". */
  method ReportDataTable(data: seq<ReportDatum>) returns (table: seq<Row>)
    ensures |table| == |data| + 1 && table[0] == FieldHeader
    ensures forall i :: 0 <= i < |data| ==> table[i + 1] == [data[i].fieldName, OrNA(data[i].fieldValue)]
  {
    table := [FieldHeader];
    for i := 0 to |data|
      invariant |table| == i + 1 && table[0] == FieldHeader
      invariant forall k :: 0 <= k < i ==> table[k + 1] == [data[k].fieldName, OrNA(data[k].fieldValue)]
    {
      table := table + [[data[i].fieldName, OrNA(data[i].fieldValue)]];
    }
  }

  /** generate_client_report_pdf's tables: the client table always, the
      report-data table only when report data was given and is non-empty. */
  method ClientReportTables(c: Client, data: Option<seq<ReportDatum>>) returns (info: seq<Row>, section: Option<seq<Row>>)
    ensures info == ClientInfoTable(c)
    ensures section.Some? <==> data.Some? && data.value != []
    ensures section.Some? ==>
      && |section.value| == |data.value| + 1 && section.value[0] == FieldHeader
      && forall i :: 0 <= i < |data.value| ==>
           section.value[i + 1] == [data.value[i].fieldName, OrNA(data.value[i].fieldValue)]
  {
    info := ClientInfoTable(c);
    if data.Some? && data.value != [] {
      var t := ReportDataTable(data.value);
      section := Some(t);
    } else {
      section := None;
    }
  }

  // ---------------------------------------------------------------- client list

  const ListHeader: Row := ["ID", "Nombre", "Email", "Teléfono", "Empresa", "Ciudad"]

  /** The columns shown with `or 'N/A'` in a list row, in order (cells 2 to 5). */
  const ListFields: seq<ClientField> := [Email, Phone, Company, City]

  /** One client in the list table (the same six cells the shell's client
      list shows): no cell but the name can be empty. */
  function ListRow(c: Client): (r: Row)
    ensures |r| == |ListHeader|
    ensures r[0] == NatToString(c.id) && r[1] == c.name
    ensures forall k :: 0 <= k < |ListFields| ==> r[2 + k] == OrNA(FieldValue(c, ListFields[k]))
    ensures forall k :: 0 <= k < |r| && k != 1 ==> r[k] != ""
  {
    [NatToString(c.id), c.name, OrNA(Some(c.email)), OrNA(c.phone), OrNA(c.company), OrNA(c.city)]
  }

  const TotalPrefix := "Total de clientes: "

  /** generate_clients_list_pdf's table and footer: the header, one row per
      client in input order, and a footer whose number is the row count. */
  method ClientsListTable(clients: seq<Client>) returns (table: seq<Row>, footer: string)
    ensures |table| == |clients| + 1 && table[0] == ListHeader
    ensures forall i :: 0 <= i < |clients| ==> table[i + 1] == ListRow(clients[i])
    ensures footer == TotalPrefix + NatToString(|clients|)
    ensures AllDigits(footer[|TotalPrefix|..]) && ParseNat(footer[|TotalPrefix|..]) == |table| - 1
  {
    table := [ListHeader];
    for i := 0 to |clients|
      invariant |table| == i + 1 && table[0] == ListHeader
      invariant forall k :: 0 <= k < i ==> table[k + 1] == ListRow(clients[k])
    {
      table := table + [ListRow(clients[i])];
    }
    footer := TotalPrefix + NatToString(|clients|);
    assert footer[|TotalPrefix|..] == NatToString(|clients|);
    ParseNatToString(|clients|);
  }

  // ---------------------------------------------------------------- spreadsheet export

  /** A spreadsheet cell: pandas writes ints as numbers, text as text, and
      NULL (NaN) as an empty cell. */
  datatype Cell = IntCell(n: nat) | TextCell(s: string) | EmptyCell

  function OptCell(v: Option<string>): Cell {
    match v
    case Some(s) => TextCell(s)
    case None => EmptyCell
  }

  /** The columns kept, in order, by the reindex. */
  const ExportColumns: seq<string> :=
    ["id", "name", "email", "phone", "company", "address", "city", "country", "created_at"]

  /** Their labels in the written file, position by position. */
  const ExportHeaders: seq<string> :=
    ["ID", "Nombre", "Email", "Teléfono", "Empresa", "Dirección", "Ciudad", "País", "Fecha de Registro"]

  /** A client row read as the dict the store returns: column name to value. */
  function ColumnValue(c: Client, column: string): Option<Cell> {
    if column == "id" then Some(IntCell(c.id))
    else if column == "name" then Some(TextCell(c.name))
    else if column == "email" then Some(TextCell(c.email))
    else if column == "phone" then Some(OptCell(c.phone))
    else if column == "company" then Some(OptCell(c.company))
    else if column == "address" then Some(OptCell(c.address))
    else if column == "city" then Some(OptCell(c.city))
    else if column == "country" then Some(OptCell(c.country))
    else if column == "created_at" then Some(TextCell(c.createdAt))
    else if column == "updated_at" then Some(TextCell(c.updatedAt))
    else None
  }

  /** One client as written to the spreadsheet and to the CSV file: cell i
      is the dict's value under ExportColumns[i]; a NULL stays an empty cell
      (no "N/A" here) and updated_at is not written. */
  function ExportRow(c: Client): (r: seq<Cell>)
    ensures |r| == |ExportColumns| == |ExportHeaders|
    ensures forall i :: 0 <= i < |r| ==> ColumnValue(c, ExportColumns[i]) == Some(r[i])
    ensures forall i :: 0 <= i < |r| ==> (r[i] == EmptyCell <==> 3 <= i < 8 && FieldValue(c, [Phone, Company, Address, City, Country][i - 3]).None?)
  {
    [IntCell(c.id), TextCell(c.name), TextCell(c.email), OptCell(c.phone), OptCell(c.company),
     OptCell(c.address), OptCell(c.city), OptCell(c.country), TextCell(c.createdAt)]
  }

  /** The relabelling is one-to-one: nine distinct headers for nine
      distinct columns, and updated_at is not among them. */
  lemma ExportRelabelOneToOne()
    ensures |ExportColumns| == |ExportHeaders| == 9
    ensures forall i, j :: 0 <= i < j < 9 ==> ExportColumns[i] != ExportColumns[j] && ExportHeaders[i] != ExportHeaders[j]
    ensures "updated_at" !in ExportColumns
  {
  }

  /** `str(cell.value)` as it reads back before saving: an empty cell was
      written as pandas' default empty text. */
  function CellText(x: Cell): string {
    match x
    case IntCell(n) => NatToString(n)
    case TextCell(s) => s
    case EmptyCell => ""
  }

  /** Column j of the written sheet, header first. */
  function SheetColumn(clients: seq<Client>, j: nat): (col: seq<string>)
    requires j < |ExportHeaders|
    ensures |col| == |clients| + 1 && col[0] == ExportHeaders[j]
  {
    [ExportHeaders[j]] + seq(|clients|, i requires 0 <= i < |clients| => CellText(ExportRow(clients[i])[j]))
  }

  /** The longest text in a column, 0 for none. */
  function MaxLen(col: seq<string>): (m: nat)
    ensures forall i :: 0 <= i < |col| ==> |col[i]| <= m
    ensures m == 0 || exists i :: 0 <= i < |col| && |col[i]| == m
  {
    if col == [] then 0
    else
      var m := MaxLen(col[..|col| - 1]);
      var x := col[|col| - 1];
      assert forall i :: 0 <= i < |col| - 1 ==> col[..|col| - 1][i] == col[i];
      if |x| > m then |x| else m
  }

  function Min(a: int, b: int): int {
    if a <= b then a else b
  }

  /** The width loop: each column gets its longest text plus two, capped at 50. */
  method ColumnWidths(columns: seq<seq<string>>) returns (widths: seq<nat>)
    ensures |widths| == |columns|
    ensures forall j :: 0 <= j < |columns| ==> widths[j] == Min(MaxLen(columns[j]) + 2, 50)
    ensures forall j :: 0 <= j < |columns| ==> 2 <= widths[j] <= 50
  {
    widths := [];
    for j := 0 to |columns|
      invariant |widths| == j
      invariant forall k :: 0 <= k < j ==> widths[k] == Min(MaxLen(columns[k]) + 2, 50)
    {
      var column := columns[j];
      var maxLength := 0;
      for i := 0 to |column|
        invariant maxLength == MaxLen(column[..i])
      {
        assert column[..i + 1][..i] == column[..i];
        if |column[i]| > maxLength {
          maxLength := |column[i]|;
        }
      }
      assert column[..|column|] == column;
      widths := widths + [Min(maxLength + 2, 50)];
    }
  }

  /** generate_clients_list_excel's widths: nine columns, each between 2
      and 50, and wide enough for its header up to the cap. */
  method ExcelColumnWidths(clients: seq<Client>) returns (widths: seq<nat>)
    ensures |widths| == |ExportHeaders|
    ensures forall j :: 0 <= j < |widths| ==> widths[j] == Min(MaxLen(SheetColumn(clients, j)) + 2, 50)
    ensures forall j :: 0 <= j < |widths| ==> 2 <= widths[j] <= 50 && Min(|ExportHeaders[j]| + 2, 50) <= widths[j]
  {
    var columns := seq(|ExportHeaders|, j requires 0 <= j < |ExportHeaders| => SheetColumn(clients, j));
    widths := ColumnWidths(columns);
    forall j | 0 <= j < |widths| ensures Min(|ExportHeaders[j]| + 2, 50) <= widths[j] {
      assert columns[j][0] == ExportHeaders[j];
    }
  }

  // ---------------------------------------------------------------- statistics

  const MetricHeader: Row := ["Métrica", "Valor"]

  /** One row per group, in the group order, labelled `prefix + key`; the
      count cell reads back as the count. */
  method CountRows(prefix: string, groups: seq<Group>) returns (rows: seq<Row>)
    ensures |rows| == |groups|
    ensures forall i :: 0 <= i < |groups| ==> rows[i] == [prefix + groups[i].key, NatToString(groups[i].count)]
    ensures forall i :: 0 <= i < |groups| ==> AllDigits(rows[i][1]) && ParseNat(rows[i][1]) == groups[i].count
  {
    rows := [];
    for i := 0 to |groups|
      invariant |rows| == i
      invariant forall k :: 0 <= k < i ==> rows[k] == [prefix + groups[k].key, NatToString(groups[k].count)]
      invariant forall k :: 0 <= k < i ==> ParseNat(rows[k][1]) == groups[k].count
    {
      ParseNatToString(groups[i].count);
      rows := rows + [[prefix + groups[i].key, NatToString(groups[i].count)]];
    }
  }

  /** The client statistics table: header, total, then one row per country. */
  method ClientStatsTable(st: ClientStats) returns (table: seq<Row>)
    ensures |table| == 2 + |st.byCountry|
    ensures table[0] == MetricHeader && table[1] == ["Total de Clientes", NatToString(st.totalClients)]
    ensures forall i :: 0 <= i < |st.byCountry| ==>
      table[2 + i] == ["Clientes en " + st.byCountry[i].key, NatToString(st.byCountry[i].count)]
  {
    var rows := CountRows("Clientes en ", st.byCountry);
    table := [MetricHeader, ["Total de Clientes", NatToString(st.totalClients)]] + rows;
  }

  /** The report statistics table: header, total, one row per status, then
      one row per type. */
  method ReportStatsTable(st: ReportStats) returns (table: seq<Row>)
    ensures |table| == 2 + |st.byStatus| + |st.byType|
    ensures table[0] == MetricHeader && table[1] == ["Total de Reportes", NatToString(st.totalReports)]
    ensures forall i :: 0 <= i < |st.byStatus| ==>
      table[2 + i] == ["Reportes " + st.byStatus[i].key, NatToString(st.byStatus[i].count)]
    ensures forall i :: 0 <= i < |st.byType| ==>
      table[2 + |st.byStatus| + i] == ["Reportes tipo " + st.byType[i].key, NatToString(st.byType[i].count)]
  {
    var statusRows := CountRows("Reportes ", st.byStatus);
    var typeRows := CountRows("Reportes tipo ", st.byType);
    table := [MetricHeader, ["Total de Reportes", NatToString(st.totalReports)]] + statusRows + typeRows;
  }

  // ---------------------------------------------------------------- file names

  /** `cliente_<id>_<timestamp>.pdf` */
  function ClientPdfName(id: nat, ts: string): string {
    "cliente_" + NatToString(id) + "_" + ts + ".pdf"
  }

  /** `lista_clientes_<timestamp>.<ext>` for ext in pdf, xlsx, csv. */
  function ListName(ts: string, ext: string): string {
    "lista_clientes_" + ts + "." + ext
  }

  /** `estadisticas_<timestamp>.pdf` */
  function StatsName(ts: string): string {
    "estadisticas_" + ts + ".pdf"
  }

  /** Number of leading decimal digits. */
  function LeadingDigits(s: string): (n: nat)
    ensures n <= |s|
  {
    if s != [] && IsAsciiDigit(s[0]) then 1 + LeadingDigits(s[1..]) else 0
  }

  lemma {:induction false} LeadingDigitsOf(x: string, rest: string)
    requires AllDigits(x) && rest != [] && !IsAsciiDigit(rest[0])
    ensures LeadingDigits(x + rest) == |x|
  {
    if x != [] {
      assert (x + rest)[1..] == x[1..] + rest;
      LeadingDigitsOf(x[1..], rest);
    } else {
      assert x + rest == rest;
    }
  }

  /** Digits, an underscore, then the rest: the digits end at the underscore. */
  lemma SplitAtUnderscore(x: string, s: string, y: string, t: string)
    requires AllDigits(x) && AllDigits(y) && x + "_" + s == y + "_" + t
    ensures x == y && s == t
  {
    var u := x + "_" + s;
    assert u == x + ("_" + s);
    assert y + "_" + t == y + ("_" + t);
    LeadingDigitsOf(x, "_" + s);
    LeadingDigitsOf(y, "_" + t);
    assert x == u[..|x|] && y == u[..|y|];
    assert s == u[|x| + 1..] && t == u[|y| + 1..];
  }

  /** Different clients or timestamps never share a client report name. */
  lemma ClientPdfNameInjective(a: nat, s: string, b: nat, t: string)
    requires ClientPdfName(a, s) == ClientPdfName(b, t)
    ensures a == b && s == t
  {
    var x, y := NatToString(a), NatToString(b);
    var n := ClientPdfName(a, s);
    var u := x + "_" + s;
    var v := y + "_" + t;
    assert n == "cliente_" + u + ".pdf";
    assert n == "cliente_" + v + ".pdf";
    assert u == n[8..|n| - 4] == v;
    SplitAtUnderscore(x, s, y, t);
    NatToStringInjective(a, b);
  }

  /** Timestamps have a fixed width, so list names with different
      timestamps or extensions differ. */
  lemma ListNameInjective(s: string, e: string, t: string, f: string)
    requires |s| == |t| && ListName(s, e) == ListName(t, f)
    ensures s == t && e == f
  {
    var n := ListName(s, e);
    assert n == "lista_clientes_" + s + "." + e;
    assert n == "lista_clientes_" + t + "." + f;
    assert s == n[15..15 + |s|] == t;
    assert e == n[16 + |s|..] == f;
  }

  /** The three name families never collide. */
  lemma NameFamiliesDistinct(id: nat, s: string, t: string, e: string, u: string)
    ensures ClientPdfName(id, s) != ListName(t, e)
    ensures ClientPdfName(id, s) != StatsName(u)
    ensures ListName(t, e) != StatsName(u)
  {
    assert ClientPdfName(id, s)[0] == 'c';
    assert ListName(t, e)[0] == 'l';
    assert StatsName(u)[0] == 'e';
  }

  /** `os.path.join(dir, name)` on POSIX. */
  function JoinPath(dir: string, name: string): string {
    if name != [] && name[0] == '/' then name
    else if dir == [] || dir[|dir| - 1] == '/' then dir + name
    else dir + "/" + name
  }

  /** The part of a joined path that comes from the directory. */
  function DirPrefix(dir: string): string {
    if dir == [] || dir[|dir| - 1] == '/' then dir else dir + "/"
  }

  /** A relative name is kept whole at the end of the path, after a prefix
      that depends on the directory only; so within one output directory
      different names give different paths. */
  lemma JoinPathKeepsName(dir: string, a: string, b: string)
    requires (a == [] || a[0] != '/') && (b == [] || b[0] != '/')
    ensures JoinPath(dir, a) == DirPrefix(dir) + a
    ensures JoinPath(dir, a) == JoinPath(dir, b) ==> a == b
  {
    var p := DirPrefix(dir);
    if JoinPath(dir, a) == JoinPath(dir, b) {
      assert JoinPath(dir, b) == p + b;
      assert a == (p + a)[|p|..] == (p + b)[|p|..] == b;
    }
  }
}
