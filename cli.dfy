/** The data rules of src/cli_menus.py (MainMenu): the client search filter,
    the list and search tables with "N/A" for missing values, empty answers
    turned into NULL before they reach the store, and the logged-in user. */
module Cli {
  import opened Wrappers
  import opened Text
  import opened Database
  import opened Auth
  import opened Reports

  // ---------------------------------------------------------------- search

  /** The search condition: the lower-cased term occurs in the lower-cased
      name, email or company, a NULL email or company read as "". */
  predicate Matches(c: Client, term: string) {
    var t := ToLower(term);
    || Contains(ToLower(c.name), t)
    || Contains(ToLower(OrEmpty(FieldValue(c, Email))), t)
    || Contains(ToLower(OrEmpty(FieldValue(c, Company))), t)
  }

  /** The filtering comprehension of search_clients. */
  function Search(clients: seq<Client>, term: string): (r: seq<Client>)
    ensures forall c :: c in r <==> c in clients && Matches(c, term)
    ensures |r| <= |clients|
  {
    if clients == [] then []
    else (if Matches(clients[0], term) then [clients[0]] else []) + Search(clients[1..], term)
  }

  /** The search never lists a client more often than the input does, so on
      a table (distinct ids) each match appears exactly once. */
  lemma {:induction false} SearchSubMultiset(clients: seq<Client>, term: string)
    ensures multiset(Search(clients, term)) <= multiset(clients)
    decreases |clients|
  {
    if clients != [] {
      SearchSubMultiset(clients[1..], term);
      assert clients == [clients[0]] + clients[1..];
    }
  }

  /** `r` is `s` with some elements left out, the rest in the same order. */
  predicate Subsequence<T(==)>(r: seq<T>, s: seq<T>)
    decreases |s|
  {
    r == [] || (s != [] && ((r[0] == s[0] && Subsequence(r[1..], s[1..])) || Subsequence(r, s[1..])))
  }

  /** The search keeps the input order. */
  lemma {:induction false} SearchIsSubsequence(clients: seq<Client>, term: string)
    ensures Subsequence(Search(clients, term), clients)
    decreases |clients|
  {
    if clients != [] {
      SearchIsSubsequence(clients[1..], term);
      var r := Search(clients, term);
      var rest := Search(clients[1..], term);
      if Matches(clients[0], term) {
        assert r == [clients[0]] + rest;
        assert r[0] == clients[0] && r[1..] == rest;
      } else {
        assert r == [] + rest == rest;
      }
    }
  }

  /** Searching the result again with the same term changes nothing. */
  lemma {:induction false} SearchIdempotent(clients: seq<Client>, term: string)
    ensures Search(Search(clients, term), term) == Search(clients, term)
    decreases |clients|
  {
    if clients != [] {
      SearchIdempotent(clients[1..], term);
      var rest := Search(clients[1..], term);
      if Matches(clients[0], term) {
        assert Search(clients, term) == [clients[0]] + rest;
        assert ([clients[0]] + rest)[1..] == rest;
      } else {
        assert Search(clients, term) == [] + rest == rest;
      }
    }
  }

  /** An empty term keeps every client. */
  lemma {:induction false} EmptyTermKeepsAll(clients: seq<Client>)
    ensures Search(clients, "") == clients
    decreases |clients|
  {
    if clients != [] {
      ContainsEmpty(ToLower(clients[0].name));
      EmptyTermKeepsAll(clients[1..]);
      assert clients == [clients[0]] + clients[1..];
    }
  }

  /** A non-empty term never matches through a NULL email or company. */
  lemma NoMatchThroughNull(c: Client, term: string, f: ClientField)
    requires term != "" && (f == Email || f == Company) && FieldValue(c, f).None?
    ensures !Contains(ToLower(OrEmpty(FieldValue(c, f))), ToLower(term))
  {
    ContainsInEmpty(ToLower(term));
  }

  // ---------------------------------------------------------------- tables

  /** One client in the search table: id, name, email and company, a NULL
      or empty email or company shown as "N/A". */
  function SearchRow(c: Client): (r: Row)
    ensures |r| == 4 && r[0] == NatToString(c.id) && r[1] == c.name
    ensures r[2] == OrNA(FieldValue(c, Email)) && r[3] == OrNA(FieldValue(c, Company))
    ensures r[2] != "" && r[3] != ""
  {
    [NatToString(c.id), c.name, OrNA(Some(c.email)), OrNA(c.company)]
  }

  /** list_clients: None (the "no clients" warning) for an empty table,
      otherwise one list row per client, newest first. */
  method ListClients(db: DatabaseManager) returns (table: Option<seq<Row>>)
    ensures table.None? <==> db.clients == []
    ensures table.Some? ==>
      var all := GetAllClients(db.clients);
      |table.value| == |all| && forall i :: 0 <= i < |all| ==> table.value[i] == ListRow(all[i])
  {
    var clients := GetAllClients(db.clients);
    if clients == [] {
      return None;
    }
    var rows: seq<Row> := [];
    for i := 0 to |clients|
      invariant |rows| == i
      invariant forall k :: 0 <= k < i ==> rows[k] == ListRow(clients[k])
    {
      rows := rows + [ListRow(clients[i])];
    }
    table := Some(rows);
  }

  /** search_clients: None (the "no results" warning) when nothing matches,
      otherwise one search row per matching client, newest first. */
  method SearchClients(db: DatabaseManager, term: string) returns (table: Option<seq<Row>>)
    ensures var found := Search(GetAllClients(db.clients), term);
      && (table.None? <==> found == [])
      && (table.Some? ==> |table.value| == |found| && forall i :: 0 <= i < |found| ==> table.value[i] == SearchRow(found[i]))
  {
    var found := Search(GetAllClients(db.clients), term);
    if found == [] {
      return None;
    }
    var rows: seq<Row> := [];
    for i := 0 to |found|
      invariant |rows| == i
      invariant forall k :: 0 <= k < i ==> rows[k] == SearchRow(found[k])
    {
      rows := rows + [SearchRow(found[i])];
    }
    table := Some(rows);
  }

  // ---------------------------------------------------------------- the shell

  /** The optional columns; the shell never stores "" in any of them. */
  const OptionalFields: seq<ClientField> := [Phone, Company, Address, City, Country]

  predicate NoEmptyOptionals(c: Client) {
    forall k :: 0 <= k < |OptionalFields| ==> FieldValue(c, OptionalFields[k]) != Some("")
  }

  /** The update edit_client sends: all seven columns, the optional ones
      NULL when left empty. */
  function EditChanges(name: string, email: string, phone: string, company: string,
                       address: string, city: string, country: string): (m: map<ClientField, Option<string>>)
    ensures NullsAllowed(m)
    ensures m.Keys == {Name, Email, Phone, Company, Address, City, Country}
    ensures forall k :: 0 <= k < |OptionalFields| ==> m[OptionalFields[k]] != Some("")
    ensures m[Name] == Some(name) && m[Email] == Some(email)
    ensures && OrEmpty(m[Phone]) == phone && OrEmpty(m[Company]) == company
            && OrEmpty(m[Address]) == address && OrEmpty(m[City]) == city && OrEmpty(m[Country]) == country
  {
    map[Name := Some(name), Email := Some(email), Phone := NoneIfEmpty(phone),
        Company := NoneIfEmpty(company), Address := NoneIfEmpty(address),
        City := NoneIfEmpty(city), Country := NoneIfEmpty(country)]
  }

  /** A row rewritten with every column from EditChanges has no "" in its
      optional columns, whatever it held before. */
  lemma EditedRowHasNoEmptyOptionals(c: Client, name: string, email: string, phone: string, company: string,
                                     address: string, city: string, country: string, now: string)
    ensures NoEmptyOptionals(Patched(c, EditChanges(name, email, phone, company, address, city, country), now))
  {
    var m := EditChanges(name, email, phone, company, address, city, country);
    var p := Patched(c, m, now);
    forall k | 0 <= k < |OptionalFields| ensures FieldValue(p, OptionalFields[k]) != Some("") {
      assert FieldValue(p, OptionalFields[k]) == m[OptionalFields[k]];
    }
  }

  class MainMenu {
    const db: DatabaseManager
    const auth: AuthManager
    var currentUser: Option<UserSummary>

    constructor (db: DatabaseManager, auth: AuthManager)
      requires auth.db == db
      ensures this.db == db && this.auth == auth && currentUser == None
    {
      this.db := db;
      this.auth := auth;
      currentUser := None;
    }

    /** login_menu: the session user is set exactly when authentication
        returns a user; a failed attempt leaves it as it was. */
    method Login(username: string, password: string) returns (ok: bool)
      modifies this`currentUser
      ensures var user := Authenticate(auth.db.users, auth.verify, username, password);
        && ok == user.Some?
        && (user.Some? ==> currentUser == user)
        && (user.None? ==> currentUser == old(currentUser))
    {
      var user := Authenticate(auth.db.users, auth.verify, username, password);
      if user.Some? {
        currentUser := user;
        ok := true;
      } else {
        ok := false;
      }
    }

    /** logout */
    method Logout()
      modifies this`currentUser
      ensures currentUser == None
    {
      currentUser := None;
    }

    /** add_client: empty optional answers become NULL; on success the new
        row holds no "" in its optional columns. */
    method AddClient(now: string, name: string, email: string, phone: string, company: string,
                     address: string, city: string, country: string)
      returns (r: Result<nat, DbError>)
      requires db.Valid()
      modifies db`clients, db`clientSeq
      ensures db.Valid()
      ensures EmailTaken(old(db.clients), email) ==> r.Err?
      ensures !EmailTaken(old(db.clients), email) ==> r.Ok?
      ensures r.Err? ==> db.clients == old(db.clients) && db.clientSeq == old(db.clientSeq)
      ensures r.Ok? ==>
        && r.value == old(db.clientSeq) + 1 == db.clientSeq
        && db.clients == old(db.clients) + [Client(r.value, name, email, NoneIfEmpty(phone), NoneIfEmpty(company),
                                                   NoneIfEmpty(address), NoneIfEmpty(city), NoneIfEmpty(country), now, now)]
        && NoEmptyOptionals(db.clients[|db.clients| - 1])
    {
      r := db.CreateClient(now, name, email, NoneIfEmpty(phone), NoneIfEmpty(company),
                           NoneIfEmpty(address), NoneIfEmpty(city), NoneIfEmpty(country));
    }

    /** edit_client: None ("client not found") with nothing changed when no
        row has the id; otherwise the store's answer to an update of all
        seven columns, after which the row holds no "" in its optional
        columns. */
    method EditClient(id: int, now: string, name: string, email: string, phone: string, company: string,
                      address: string, city: string, country: string)
      returns (r: Option<Result<bool, DbError>>)
      requires db.Valid()
      modifies db`clients
      ensures db.Valid()
      ensures GetClient(old(db.clients), id).None? ==> r.None? && db.clients == old(db.clients)
      ensures GetClient(old(db.clients), id).Some? ==>
        r == Some(UpdateOutcome(old(db.clients), id, EditChanges(name, email, phone, company, address, city, country)))
      ensures r == Some(Ok(true)) ==>
        && NullsAllowed(EditChanges(name, email, phone, company, address, city, country))
        && db.clients == UpdateRows(old(db.clients), id, EditChanges(name, email, phone, company, address, city, country), now)
        && GetClient(db.clients, id).Some? && NoEmptyOptionals(GetClient(db.clients, id).value)
      ensures r != Some(Ok(true)) ==> db.clients == old(db.clients)
    {
      if GetClient(db.clients, id).None? {
        return None;
      }
      var changes := EditChanges(name, email, phone, company, address, city, country);
      var before := db.clients;
      var outcome := db.UpdateClient(id, changes, now);
      if outcome == Ok(true) {
        UpdateKeepsTable(before, db.clientSeq, id, changes, now);
        EditedRowHasNoEmptyOptionals(GetClient(before, id).value, name, email, phone, company, address, city, country, now);
      }
      r := Some(outcome);
    }
  }
}
