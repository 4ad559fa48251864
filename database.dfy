/** The SQLite store of src/database.py: the `clients`, `reports` and `users`
    tables as sequences of rows in rowid order, the AUTOINCREMENT counters,
    the constraints the schema declares (UNIQUE email, UNIQUE username,
    NOT NULL name and email, status defaulting to 'pending'), and every
    query of DatabaseManager as a function over the rows. */
module Database {
  import opened Wrappers
  import opened Text
  import opened Ordering
  import opened GroupBy

  /** A row of `clients`. */
  datatype Client = Client(
    id: nat,
    name: string,
    email: string,
    phone: Option<string>,
    company: Option<string>,
    address: Option<string>,
    city: Option<string>,
    country: Option<string>,
    createdAt: string,
    updatedAt: string)

  /** A row of `reports`. `clientId` is not checked against `clients`:
      SQLite leaves foreign keys unenforced unless asked. */
  datatype Report = Report(
    id: nat,
    clientId: int,
    title: string,
    description: Option<string>,
    reportType: string,
    status: string,
    createdAt: string,
    updatedAt: string)

  /** A row of `users`. */
  datatype User = User(id: nat, username: string, passwordHash: string, isAdmin: bool, createdAt: string)

  /** The `sqlite3.IntegrityError`s the statements can raise. */
  datatype DbError = UniqueViolation(column: string) | NotNullViolation(column: string)

  /** The columns of `clients` an update may set. */
  datatype ClientField = Name | Email | Phone | Company | Address | City | Country

  const PendingStatus := "pending"
  const GeneralType := "general"

  /** A column's value in a row; NULL is None. */
  function FieldValue(c: Client, f: ClientField): Option<string> {
    match f
    case Name => Some(c.name)
    case Email => Some(c.email)
    case Phone => c.phone
    case Company => c.company
    case Address => c.address
    case City => c.city
    case Country => c.country
  }

  // ---------------------------------------------------------------- tables

  /** `clients` in rowid order: ids strictly increasing, each issued by the
      AUTOINCREMENT counter (1 .. last), emails pairwise distinct. */
  predicate ClientTable(rows: seq<Client>, last: nat) {
    && (forall i, j :: 0 <= i < j < |rows| ==> rows[i].id < rows[j].id)
    && (forall i :: 0 <= i < |rows| ==> 1 <= rows[i].id <= last)
    && (forall i, j :: 0 <= i < j < |rows| ==> rows[i].email != rows[j].email)
  }

  /** `reports` in rowid order. */
  predicate ReportTable(rows: seq<Report>, last: nat) {
    && (forall i, j :: 0 <= i < j < |rows| ==> rows[i].id < rows[j].id)
    && (forall i :: 0 <= i < |rows| ==> 1 <= rows[i].id <= last)
  }

  /** `users` in rowid order, usernames pairwise distinct. */
  predicate UserTable(rows: seq<User>, last: nat) {
    && (forall i, j :: 0 <= i < j < |rows| ==> rows[i].id < rows[j].id)
    && (forall i :: 0 <= i < |rows| ==> 1 <= rows[i].id <= last)
    && (forall i, j :: 0 <= i < j < |rows| ==> rows[i].username != rows[j].username)
  }

  predicate EmailTaken(rows: seq<Client>, email: string) {
    exists i :: 0 <= i < |rows| && rows[i].email == email
  }

  /** Some row other than the one with id `id` holds `email`. */
  predicate EmailTakenByOther(rows: seq<Client>, email: string, id: int) {
    exists i :: 0 <= i < |rows| && rows[i].email == email && rows[i].id != id
  }

  // ---------------------------------------------------------------- get_client

  /** Position of the last row satisfying `p`, or -1: the `WHERE` of a
      single-row lookup. */
  function IndexWhere<T>(rows: seq<T>, p: T -> bool): (k: int)
    ensures -1 <= k < |rows|
    ensures 0 <= k ==> p(rows[k])
    ensures k < 0 <==> forall i :: 0 <= i < |rows| ==> !p(rows[i])
  {
    if rows == [] then -1
    else if p(rows[|rows| - 1]) then |rows| - 1
    else IndexWhere(rows[..|rows| - 1], p)
  }

  /** Position of the row with id `id`, or -1. */
  function ClientIndex(rows: seq<Client>, id: int): (k: int)
    ensures -1 <= k < |rows|
    ensures 0 <= k ==> rows[k].id == id
    ensures k < 0 <==> forall i :: 0 <= i < |rows| ==> rows[i].id != id
  {
    IndexWhere(rows, (c: Client) => c.id == id)
  }

  /** SELECT * FROM clients WHERE id = ?: the row, or None when there is none. */
  function GetClient(rows: seq<Client>, id: int): (r: Option<Client>)
    ensures r.None? <==> forall i :: 0 <= i < |rows| ==> rows[i].id != id
    ensures r.Some? ==> r.value in rows && r.value.id == id
  {
    var k := ClientIndex(rows, id);
    if k < 0 then None else Some(rows[k])
  }

  /** With distinct ids, the row found is the one holding the id. */
  lemma GetClientAt(rows: seq<Client>, last: nat, i: nat)
    requires ClientTable(rows, last) && i < |rows|
    ensures GetClient(rows, rows[i].id) == Some(rows[i])
  {
    var k := ClientIndex(rows, rows[i].id);
    assert k == i;
  }

  // ---------------------------------------------------------------- get_all_clients

  /** ORDER BY created_at DESC: `a` may precede `b`. */
  predicate NewestFirst(a: Client, b: Client) {
    LexLe(b.createdAt, a.createdAt)
  }

  lemma NewestFirstIsPreorder()
    ensures TotalPreorder(NewestFirst)
  {
    forall a: Client, b: Client ensures NewestFirst(a, b) || NewestFirst(b, a) {
      LexLeTotal(a.createdAt, b.createdAt);
    }
    forall a: Client, b: Client, c: Client | NewestFirst(a, b) && NewestFirst(b, c)
      ensures NewestFirst(a, c)
    {
      LexLeTransitive(c.createdAt, b.createdAt, a.createdAt);
    }
  }

  /** SELECT * FROM clients ORDER BY created_at DESC: every row once, newest
      first (rows created at the same instant in an unspecified order). */
  function GetAllClients(rows: seq<Client>): (r: seq<Client>)
    ensures multiset(r) == multiset(rows)
    ensures Ordered(r, NewestFirst)
  {
    NewestFirstIsPreorder();
    Sort(rows, NewestFirst)
  }

  // ---------------------------------------------------------------- report listings

  /** A report joined with its client's name (`r.*, c.name AS client_name`). */
  datatype ReportRow = ReportRow(report: Report, clientName: string)

  /** The row's report has a client, and the row carries that client's name. */
  predicate Tagged(clients: seq<Client>, row: ReportRow) {
    var c := GetClient(clients, row.report.clientId);
    c.Some? && c.value.name == row.clientName
  }

  /** The report column of joined rows. */
  function ReportsOf(rows: seq<ReportRow>): seq<Report> {
    seq(|rows|, i requires 0 <= i < |rows| => rows[i].report)
  }

  /** `FROM reports r JOIN clients c ON r.client_id = c.id`, in reports order. */
  function Joined(reports: seq<Report>, clients: seq<Client>): (r: seq<ReportRow>)
    ensures |r| <= |reports|
    ensures forall i :: 0 <= i < |r| ==> r[i].report in reports && Tagged(clients, r[i])
    ensures forall rep :: rep in reports && GetClient(clients, rep.clientId).Some? ==>
      exists i :: 0 <= i < |r| && r[i].report == rep
  {
    if reports == [] then []
    else
      var init := Joined(reports[..|reports| - 1], clients);
      var rep := reports[|reports| - 1];
      assert reports == reports[..|reports| - 1] + [rep];
      match GetClient(clients, rep.clientId)
      case None => init
      case Some(c) =>
        var r := init + [ReportRow(rep, c.name)];
        assert r[|init|].report == rep;
        assert forall i :: 0 <= i < |init| ==> r[i] == init[i];
        r
  }

  lemma ReportsOfAppend(j: seq<ReportRow>, x: ReportRow)
    ensures ReportsOf(j + [x]) == ReportsOf(j) + [x.report]
  {
    assert forall i :: 0 <= i < |j| ==> ReportsOf(j + [x])[i] == j[i].report;
  }

  /** One more stored report adds it to the join's report column exactly
      when its client exists. */
  lemma JoinedStep(init: seq<Report>, last: Report, clients: seq<Client>)
    ensures multiset(ReportsOf(Joined(init + [last], clients)))
            == multiset(ReportsOf(Joined(init, clients)))
               + if GetClient(clients, last.clientId).Some? then multiset{last} else multiset{}
  {
    var reports := init + [last];
    assert reports[..|reports| - 1] == init;
    var j0 := Joined(init, clients);
    var g := GetClient(clients, last.clientId);
    if g.Some? {
      var x := ReportRow(last, g.value.name);
      assert Joined(reports, clients) == j0 + [x];
      ReportsOfAppend(j0, x);
    } else {
      assert Joined(reports, clients) == j0;
    }
  }

  /** The join lists a report whose client exists as often as it is stored
      (once, in a table), and any other report not at all. */
  lemma {:induction false} JoinedCounts(reports: seq<Report>, clients: seq<Client>)
    ensures forall rep :: multiset(ReportsOf(Joined(reports, clients)))[rep]
                          == if GetClient(clients, rep.clientId).Some? then multiset(reports)[rep] else 0
  {
    if reports != [] {
      var init := reports[..|reports| - 1];
      var last := reports[|reports| - 1];
      JoinedCounts(init, clients);
      assert reports == init + [last];
      assert multiset(reports) == multiset(init) + multiset{last};
      JoinedStep(init, last, clients);
    }
  }

  /** ORDER BY r.created_at DESC on joined rows. */
  predicate NewerReport(a: ReportRow, b: ReportRow) {
    LexLe(b.report.createdAt, a.report.createdAt)
  }

  lemma NewerReportIsPreorder()
    ensures TotalPreorder(NewerReport)
  {
    forall a: ReportRow, b: ReportRow ensures NewerReport(a, b) || NewerReport(b, a) {
      LexLeTotal(a.report.createdAt, b.report.createdAt);
    }
    forall a: ReportRow, b: ReportRow, c: ReportRow | NewerReport(a, b) && NewerReport(b, c)
      ensures NewerReport(a, c)
    {
      LexLeTransitive(c.report.createdAt, b.report.createdAt, a.report.createdAt);
    }
  }

  /** Sorting joined rows keeps exactly the joined reports. */
  lemma SortedJoin(j: seq<ReportRow>, r: seq<ReportRow>, reports: seq<Report>, clients: seq<Client>)
    requires multiset(r) == multiset(j)
    requires forall i :: 0 <= i < |j| ==> j[i].report in reports && Tagged(clients, j[i])
    requires forall rep :: rep in reports && GetClient(clients, rep.clientId).Some? ==>
      exists i :: 0 <= i < |j| && j[i].report == rep
    ensures forall i :: 0 <= i < |r| ==> r[i].report in reports && Tagged(clients, r[i])
    ensures forall rep :: rep in reports && GetClient(clients, rep.clientId).Some? ==>
      exists i :: 0 <= i < |r| && r[i].report == rep
  {
    forall i | 0 <= i < |r| ensures r[i].report in reports && Tagged(clients, r[i]) {
      assert r[i] in multiset(j);
    }
    forall rep | rep in reports && GetClient(clients, rep.clientId).Some?
      ensures exists i :: 0 <= i < |r| && r[i].report == rep
    {
      var k :| 0 <= k < |j| && j[k].report == rep;
      assert j[k] in multiset(r);
      var i :| 0 <= i < |r| && r[i] == j[k];
    }
  }

  /** get_all_reports: every report whose client row exists, once, tagged
      with that client's name, newest first; reports of missing clients are
      dropped by the inner join. */
  function GetAllReports(reports: seq<Report>, clients: seq<Client>): (r: seq<ReportRow>)
    ensures forall i :: 0 <= i < |r| ==> r[i].report in reports && Tagged(clients, r[i])
    ensures forall rep :: rep in reports && GetClient(clients, rep.clientId).Some? ==>
      exists i :: 0 <= i < |r| && r[i].report == rep
    ensures multiset(r) == multiset(Joined(reports, clients))
    ensures Ordered(r, NewerReport)
  {
    NewerReportIsPreorder();
    var j := Joined(reports, clients);
    var r := Sort(j, NewerReport);
    SortedJoin(j, r, reports, clients);
    r
  }

  /** WHERE r.client_id = ?, in reports order. */
  function OfClient(reports: seq<Report>, clientId: int): (r: seq<Report>)
    ensures forall rep :: rep in r <==> rep in reports && rep.clientId == clientId
    ensures forall rep :: multiset(r)[rep] == if rep.clientId == clientId then multiset(reports)[rep] else 0
  {
    if reports == [] then []
    else
      var rep := reports[|reports| - 1];
      assert reports == reports[..|reports| - 1] + [rep];
      assert multiset(reports) == multiset(reports[..|reports| - 1]) + multiset{rep};
      OfClient(reports[..|reports| - 1], clientId) + (if rep.clientId == clientId then [rep] else [])
  }

  /** get_reports_by_client: the reports of `clientId`, tagged with the
      client's name, newest first; none at all when the client row is gone. */
  function GetReportsByClient(reports: seq<Report>, clients: seq<Client>, clientId: int): (r: seq<ReportRow>)
    ensures forall i :: 0 <= i < |r| ==>
      r[i].report in reports && r[i].report.clientId == clientId && Tagged(clients, r[i])
    ensures forall rep :: rep in reports && rep.clientId == clientId && GetClient(clients, clientId).Some? ==>
      exists i :: 0 <= i < |r| && r[i].report == rep
    ensures GetClient(clients, clientId).None? ==> r == []
    ensures multiset(r) == multiset(Joined(OfClient(reports, clientId), clients))
    ensures Ordered(r, NewerReport)
  {
    NewerReportIsPreorder();
    var mine := OfClient(reports, clientId);
    var j := Joined(mine, clients);
    var r := Sort(j, NewerReport);
    SortedJoin(j, r, mine, clients);
    r
  }

  // ---------------------------------------------------------------- update_client

  /** `updated_at` plus the named columns take their new values; NULL is not
      written into `name` or `email`. */
  predicate NullsAllowed(changes: map<ClientField, Option<string>>) {
    && (Name in changes ==> changes[Name].Some?)
    && (Email in changes ==> changes[Email].Some?)
  }

  /** The row after `UPDATE clients SET <changes>, updated_at = now`. */
  function Patched(c: Client, changes: map<ClientField, Option<string>>, now: string): (r: Client)
    requires NullsAllowed(changes)
    ensures r.id == c.id && r.createdAt == c.createdAt && r.updatedAt == now
    ensures forall f :: FieldValue(r, f) == if f in changes then changes[f] else FieldValue(c, f)
  {
    Client(
      c.id,
      if Name in changes then changes[Name].value else c.name,
      if Email in changes then changes[Email].value else c.email,
      if Phone in changes then changes[Phone] else c.phone,
      if Company in changes then changes[Company] else c.company,
      if Address in changes then changes[Address] else c.address,
      if City in changes then changes[City] else c.city,
      if Country in changes then changes[Country] else c.country,
      c.createdAt,
      now)
  }

  function UpdateRows(rows: seq<Client>, id: int, changes: map<ClientField, Option<string>>, now: string): seq<Client>
    requires NullsAllowed(changes)
  {
    seq(|rows|, i requires 0 <= i < |rows| => if rows[i].id == id then Patched(rows[i], changes, now) else rows[i])
  }

  /** What update_client answers: false for an empty update (no statement
      runs) or an id no row has (rowcount 0); otherwise the constraint the
      new values break (NOT NULL is checked before UNIQUE), or true. */
  function UpdateOutcome(rows: seq<Client>, id: int, changes: map<ClientField, Option<string>>): (r: Result<bool, DbError>)
    ensures r == Ok(false) <==> changes == map[] || GetClient(rows, id).None?
    ensures r == Ok(true) <==>
      && changes != map[] && GetClient(rows, id).Some? && NullsAllowed(changes)
      && !(Email in changes && EmailTakenByOther(rows, changes[Email].value, id))
    ensures r.Err? ==> r.error in {NotNullViolation("name"), NotNullViolation("email"), UniqueViolation("email")}
  {
    if changes == map[] || ClientIndex(rows, id) < 0 then Ok(false)
    else if Name in changes && changes[Name].None? then Err(NotNullViolation("name"))
    else if Email in changes && changes[Email].None? then Err(NotNullViolation("email"))
    else if Email in changes && EmailTakenByOther(rows, changes[Email].value, id) then Err(UniqueViolation("email"))
    else Ok(true)
  }

  /** A successful update keeps the table's invariants, rewrites exactly the
      row with that id, and leaves every other id's row as it was. */
  lemma UpdateKeepsTable(rows: seq<Client>, last: nat, id: int, changes: map<ClientField, Option<string>>, now: string)
    requires ClientTable(rows, last)
    requires UpdateOutcome(rows, id, changes) == Ok(true)
    ensures ClientTable(UpdateRows(rows, id, changes, now), last)
    ensures GetClient(UpdateRows(rows, id, changes, now), id) == Some(Patched(GetClient(rows, id).value, changes, now))
    ensures forall other :: other != id ==>
      GetClient(UpdateRows(rows, id, changes, now), other) == GetClient(rows, other)
  {
    var r := UpdateRows(rows, id, changes, now);
    UpdatedRowsFormTable(rows, last, id, changes, now);
    GetClientAt(r, last, ClientIndex(rows, id));
    forall other | other != id ensures GetClient(r, other) == GetClient(rows, other) {
      var k' := ClientIndex(rows, other);
      if 0 <= k' {
        GetClientAt(r, last, k');
        GetClientAt(rows, last, k');
      }
    }
  }

  lemma UpdatedRowsFormTable(rows: seq<Client>, last: nat, id: int, changes: map<ClientField, Option<string>>, now: string)
    requires ClientTable(rows, last)
    requires UpdateOutcome(rows, id, changes) == Ok(true)
    ensures ClientTable(UpdateRows(rows, id, changes, now), last)
  {
    var r := UpdateRows(rows, id, changes, now);
    assert forall i :: 0 <= i < |r| ==> r[i].id == rows[i].id;
    forall i, j | 0 <= i < j < |r| ensures r[i].email != r[j].email {
      if rows[i].id == id {
        assert r[j] == rows[j];
      } else if rows[j].id == id {
        assert r[i] == rows[i];
      }
    }
  }

  // ---------------------------------------------------------------- delete_client

  /** DELETE FROM clients WHERE id = ?: the rows left, in order. */
  function Deleted(rows: seq<Client>, id: int): (r: seq<Client>)
    ensures forall c :: c in r <==> c in rows && c.id != id
    ensures |r| <= |rows|
  {
    if rows == [] then []
    else
      var c := rows[|rows| - 1];
      assert rows == rows[..|rows| - 1] + [c];
      Deleted(rows[..|rows| - 1], id) + (if c.id == id then [] else [c])
  }

  lemma {:induction false} DeletedInOrder(rows: seq<Client>, id: int)
    requires forall i, j :: 0 <= i < j < |rows| ==> rows[i].id < rows[j].id
    ensures forall i, j :: 0 <= i < j < |Deleted(rows, id)| ==> Deleted(rows, id)[i].id < Deleted(rows, id)[j].id
  {
    if rows != [] {
      var init := rows[..|rows| - 1];
      var c := rows[|rows| - 1];
      DeletedInOrder(init, id);
      var d := Deleted(init, id);
      forall i | 0 <= i < |d| ensures d[i].id < c.id {
        assert d[i] in init;
      }
    }
  }

  /** The rows left by a delete still form a table, and none has the id. */
  lemma DeletedRowsFormTable(rows: seq<Client>, last: nat, id: int)
    requires ClientTable(rows, last)
    ensures ClientTable(Deleted(rows, id), last)
    ensures forall i :: 0 <= i < |Deleted(rows, id)| ==> Deleted(rows, id)[i].id != id
  {
    var r := Deleted(rows, id);
    DeletedInOrder(rows, id);
    forall i | 0 <= i < |r| ensures 1 <= r[i].id <= last && r[i].id != id {
      assert r[i] in rows;
    }
    DeletedKeepsEmails(rows, last, id);
  }

  lemma DeletedKeepsEmails(rows: seq<Client>, last: nat, id: int)
    requires ClientTable(rows, last)
    ensures forall i, j :: 0 <= i < j < |Deleted(rows, id)| ==> Deleted(rows, id)[i].email != Deleted(rows, id)[j].email
  {
    var r := Deleted(rows, id);
    DeletedInOrder(rows, id);
    forall i, j | 0 <= i < j < |r| ensures r[i].email != r[j].email {
      assert r[i] in rows && r[j] in rows;
      var a :| 0 <= a < |rows| && rows[a] == r[i];
      var b :| 0 <= b < |rows| && rows[b] == r[j];
      assert a != b;
    }
  }

  /** A delete leaves the lookup of every other id as it was. */
  lemma DeleteKeepsOther(rows: seq<Client>, last: nat, id: int, other: int)
    requires ClientTable(rows, last) && other != id
    ensures GetClient(Deleted(rows, id), other) == GetClient(rows, other)
  {
    var r := Deleted(rows, id);
    DeletedRowsFormTable(rows, last, id);
    var k := ClientIndex(rows, other);
    if 0 <= k {
      assert rows[k] in r;
      var k' :| 0 <= k' < |r| && r[k'] == rows[k];
      GetClientAt(r, last, k');
    } else {
      forall i | 0 <= i < |r| ensures r[i].id != other {
        assert r[i] in rows;
      }
    }
  }

  /** After a delete the id is gone, every other id's row is unchanged, and
      the table keeps its invariants; so a second delete of the same id
      finds nothing. */
  lemma DeleteKeepsTable(rows: seq<Client>, last: nat, id: int)
    requires ClientTable(rows, last)
    ensures ClientTable(Deleted(rows, id), last)
    ensures GetClient(Deleted(rows, id), id).None?
    ensures forall other :: other != id ==> GetClient(Deleted(rows, id), other) == GetClient(rows, other)
  {
    DeletedRowsFormTable(rows, last, id);
    forall other | other != id ensures GetClient(Deleted(rows, id), other) == GetClient(rows, other) {
      DeleteKeepsOther(rows, last, id, other);
    }
  }

  /** Once a client row is deleted its reports no longer appear in any
      listing, though the report rows themselves stay. */
  lemma DeleteHidesReports(reports: seq<Report>, clients: seq<Client>, last: nat, id: int)
    requires ClientTable(clients, last)
    ensures forall i :: 0 <= i < |GetAllReports(reports, Deleted(clients, id))| ==>
      GetAllReports(reports, Deleted(clients, id))[i].report.clientId != id
    ensures GetReportsByClient(reports, Deleted(clients, id), id) == []
  {
    DeleteKeepsTable(clients, last, id);
  }

  // ---------------------------------------------------------------- create_client

  /** Appending a row under the next id with an unused email keeps the
      table's invariants, and the new row is found under its id while every
      other lookup is as before. */
  lemma InsertKeepsTable(rows: seq<Client>, last: nat, c: Client)
    requires ClientTable(rows, last)
    requires c.id == last + 1 && !EmailTaken(rows, c.email)
    ensures ClientTable(rows + [c], last + 1)
    ensures GetClient(rows + [c], c.id) == Some(c)
    ensures forall other :: other != c.id ==> GetClient(rows + [c], other) == GetClient(rows, other)
  {
    var r := rows + [c];
    assert r[..|rows|] == rows;
    forall i, j | 0 <= i < j < |r| ensures r[i].email != r[j].email {
      if j == |rows| {
        assert r[i] == rows[i];
      }
    }
  }

  // ---------------------------------------------------------------- statistics

  /** The values of one column of `clients`, NULL as None. */
  function Column(rows: seq<Client>, f: ClientField): seq<Option<string>> {
    seq(|rows|, i requires 0 <= i < |rows| => FieldValue(rows[i], f))
  }

  /** WHERE col IS NOT NULL: each value as often as it occurs in the column. */
  function NonNull(col: seq<Option<string>>): (vals: seq<string>)
    ensures |vals| + multiset(col)[None] == |col|
    ensures forall v :: multiset(vals)[v] == multiset(col)[Some(v)]
  {
    if col == [] then []
    else
      var init := col[..|col| - 1];
      var x := col[|col| - 1];
      assert col == init + [x];
      assert multiset(col) == multiset(init) + multiset{x};
      match x
      case None => NonNull(init)
      case Some(v) =>
        assert multiset(NonNull(init) + [v]) == multiset(NonNull(init)) + multiset{v};
        NonNull(init) + [v]
  }

  datatype ClientStats = ClientStats(totalClients: nat, byCountry: seq<Group>, byCity: seq<Group>)

  /** get_client_stats: the row count; clients per non-NULL country, most
      first, summing to the clients with a country; and at most ten cities,
      most first, every city left out having no more clients than any kept. */
  function GetClientStats(rows: seq<Client>): (st: ClientStats)
    ensures st.totalClients == |rows|
    ensures var countries := NonNull(Column(rows, Country));
      && CountsOf(st.byCountry, countries) && Covers(st.byCountry, countries)
      && Ordered(st.byCountry, MostFirst)
      && Total(st.byCountry) + multiset(Column(rows, Country))[None] == |rows|
    ensures var cities := NonNull(Column(rows, City));
      && |st.byCity| <= 10
      && CountsOf(st.byCity, cities) && Ordered(st.byCity, MostFirst)
      && (|st.byCity| < 10 ==> Covers(st.byCity, cities))
      && (forall i, v :: 0 <= i < |st.byCity| && v in cities && !HasKey(st.byCity, v) ==>
            multiset(cities)[v] <= st.byCity[i].count)
  {
    ClientStats(|rows|, Ranked(NonNull(Column(rows, Country))), TopRanked(NonNull(Column(rows, City)), 10))
  }

  function Statuses(reports: seq<Report>): seq<string> {
    seq(|reports|, i requires 0 <= i < |reports| => reports[i].status)
  }

  function ReportTypes(reports: seq<Report>): seq<string> {
    seq(|reports|, i requires 0 <= i < |reports| => reports[i].reportType)
  }

  datatype ReportStats = ReportStats(totalReports: nat, byStatus: seq<Group>, byType: seq<Group>)

  /** get_report_stats: the row count, and reports per status and per type;
      every report falls in exactly one group of each, so both tallies sum
      to the row count. */
  function GetReportStats(reports: seq<Report>): (st: ReportStats)
    ensures st.totalReports == |reports|
    ensures CountsOf(st.byStatus, Statuses(reports)) && Covers(st.byStatus, Statuses(reports))
    ensures CountsOf(st.byType, ReportTypes(reports)) && Covers(st.byType, ReportTypes(reports))
    ensures Total(st.byStatus) == st.totalReports && Total(st.byType) == st.totalReports
  {
    ReportStats(|reports|, Tally(Statuses(reports)), Tally(ReportTypes(reports)))
  }

  // ---------------------------------------------------------------- the store

  class DatabaseManager {
    var clients: seq<Client>
    var reports: seq<Report>
    var users: seq<User>
    /** The AUTOINCREMENT counters (sqlite_sequence): the largest id issued. */
    var clientSeq: nat
    var reportSeq: nat
    var userSeq: nat

    ghost predicate Valid()
      reads this
    {
      && ClientTable(clients, clientSeq)
      && ReportTable(reports, reportSeq)
      && UserTable(users, userSeq)
    }

    /** A freshly initialised database: empty tables. */
    constructor ()
      ensures Valid()
      ensures clients == [] && reports == [] && users == []
      ensures clientSeq == 0 && reportSeq == 0 && userSeq == 0
    {
      clients, reports, users := [], [], [];
      clientSeq, reportSeq, userSeq := 0, 0, 0;
    }

    /** create_client: a used email raises the UNIQUE violation and changes
        nothing; otherwise one row is appended under the next id, with
        created_at and updated_at both `now`, and that id is returned. */
    method CreateClient(now: string, name: string, email: string,
                        phone: Option<string> := None, company: Option<string> := None,
                        address: Option<string> := None, city: Option<string> := None,
                        country: Option<string> := None)
      returns (r: Result<nat, DbError>)
      requires Valid()
      modifies this`clients, this`clientSeq
      ensures Valid()
      ensures EmailTaken(old(clients), email) ==>
        r == Err(UniqueViolation("email")) && clients == old(clients) && clientSeq == old(clientSeq)
      ensures !EmailTaken(old(clients), email) ==>
        && r == Ok(old(clientSeq) + 1)
        && clientSeq == old(clientSeq) + 1
        && clients == old(clients) + [Client(clientSeq, name, email, phone, company, address, city, country, now, now)]
      ensures r.Ok? ==> forall i :: 0 <= i < |old(clients)| ==> old(clients)[i].id < r.value
    {
      if EmailTaken(clients, email) {
        return Err(UniqueViolation("email"));
      }
      var c := Client(clientSeq + 1, name, email, phone, company, address, city, country, now, now);
      InsertKeepsTable(clients, clientSeq, c);
      clients := clients + [c];
      clientSeq := clientSeq + 1;
      r := Ok(clientSeq);
    }

    /** update_client: the outcome UpdateOutcome gives; the table changes
        only on success, and then exactly as UpdateRows says. */
    method UpdateClient(id: int, changes: map<ClientField, Option<string>>, now: string)
      returns (r: Result<bool, DbError>)
      requires Valid()
      modifies this`clients
      ensures Valid()
      ensures r == UpdateOutcome(old(clients), id, changes)
      ensures r == Ok(true) ==> NullsAllowed(changes) && clients == UpdateRows(old(clients), id, changes, now)
      ensures r != Ok(true) ==> clients == old(clients)
    {
      if changes == map[] {
        return Ok(false);
      }
      if ClientIndex(clients, id) < 0 {
        return Ok(false);
      }
      if Name in changes && changes[Name].None? {
        return Err(NotNullViolation("name"));
      }
      if Email in changes && changes[Email].None? {
        return Err(NotNullViolation("email"));
      }
      if Email in changes && EmailTakenByOther(clients, changes[Email].value, id) {
        return Err(UniqueViolation("email"));
      }
      UpdateKeepsTable(clients, clientSeq, id, changes, now);
      clients := UpdateRows(clients, id, changes, now);
      r := Ok(true);
    }

    /** delete_client: true iff a row had that id; only that row goes, and
        the reports table is not touched. */
    method DeleteClient(id: int) returns (deleted: bool)
      requires Valid()
      modifies this`clients
      ensures Valid()
      ensures deleted <==> GetClient(old(clients), id).Some?
      ensures clients == Deleted(old(clients), id)
    {
      deleted := ClientIndex(clients, id) >= 0;
      DeleteKeepsTable(clients, clientSeq, id);
      clients := Deleted(clients, id);
    }

    /** create_report: always inserts, whether or not the client exists,
        with status 'pending' and by default type 'general'. */
    method CreateReport(now: string, clientId: int, title: string,
                        description: Option<string> := None, reportType: string := GeneralType)
      returns (id: nat)
      requires Valid()
      modifies this`reports, this`reportSeq
      ensures Valid()
      ensures id == old(reportSeq) + 1 && reportSeq == id
      ensures reports == old(reports) + [Report(id, clientId, title, description, reportType, PendingStatus, now, now)]
    {
      reportSeq := reportSeq + 1;
      id := reportSeq;
      reports := reports + [Report(id, clientId, title, description, reportType, PendingStatus, now, now)];
    }
  }
}
