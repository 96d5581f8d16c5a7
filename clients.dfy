/**
 * The client routes of `backend/routes/clients.py`: every query is scoped
 * to the caller's `company_id` claim. Creation takes the company from the
 * caller, never from the form; the list filters by an optional
 * case-insensitive name search and orders by name.
 *
 * The text order of `ORDER BY name` is the code-point order `LexLe`; a
 * database collation is not modelled.
 */
module Clients {
  import opened Common
  import opened Claims
  import opened Lex
  import opened SqlPattern
  import opened Sorting
  import opened Models

  /** The form fields of a create request; the optional ones are `None` when left out. */
  datatype ClientForm = ClientForm(
    clientCode: Option<string>, name: string, siteAddress: Option<string>,
    contactPerson: Option<string>, contactNumber: Option<string>, email: Option<string>)

  /** The row `create_client` adds for a caller of the given company. */
  function NewClient(form: ClientForm, company: Option<int>, now: int): (c: Client)
    ensures c.companyId == company && c.name == form.name && c.clientCode == form.clientCode
  {
    Client(0, company, form.clientCode, form.name, form.siteAddress, form.contactPerson, form.contactNumber,
           form.email, now)
  }

  /** `create_client`: the new client's id; a caller without a company cannot store one (the column is `NOT NULL`). */
  method CreateClient(db: Database, user: Payload, form: ClientForm, now: int) returns (r: Result<nat>)
    requires db.Valid()
    modifies db
    ensures db.Valid()
    ensures CompanyOf(user).Err? ==> r == Err(CompanyOf(user).error)
    ensures CompanyOf(user) == Ok(None) ==> r == Err(Crash("IntegrityError"))
    ensures r.Ok? <==> CompanyOf(user).Ok? && CompanyOf(user).value.Some?
    ensures r.Err? ==> db.clients == old(db.clients) && db.nextClientId == old(db.nextClientId)
    ensures r.Ok? ==>
              r.value == old(db.nextClientId) &&
              db.clients == old(db.clients) + [NewClient(form, CompanyOf(user).value, now).(id := r.value)] &&
              db.nextClientId == old(db.nextClientId) + 1
    ensures db.companies == old(db.companies) && db.users == old(db.users)
    ensures db.jobcards == old(db.jobcards) && db.tasks == old(db.tasks)
  {
    var company := CompanyOf(user);
    if company.Err? {
      r := Err(company.error);
      return;
    }
    var inserted := db.InsertClient(NewClient(form, company.value, now));
    if inserted.Err? {
      r := Err(inserted.error);
    } else {
      r := Ok(inserted.value.id);
    }
  }

  function ClientCompany(c: Client): Option<int> { c.companyId }

  /** `ORDER BY name` */
  predicate ByName(a: Client, b: Client) {
    LexLe(a.name, b.name)
  }

  lemma ByNameIsPreorder()
    ensures TotalPreorder(ByName)
  {
    forall a: Client, b: Client ensures ByName(a, b) || ByName(b, a) {
      LexTotal(a.name, b.name);
    }
    forall a: Client, b: Client, c: Client | ByName(a, b) && ByName(b, c) ensures ByName(a, c) {
      LexTrans(a.name, b.name, c.name);
    }
  }

  /** `f"%{search}%"` */
  function SearchPattern(search: string): string {
    "%" + search + "%"
  }

  /** `filter(Client.name.ilike(pattern))`, in table order. */
  function NameMatches(cs: seq<Client>, pattern: string): (r: seq<Client>)
    ensures forall x :: x in r <==> x in cs && ILike(pattern, x.name)
    ensures multiset(r) <= multiset(cs)
    decreases |cs|
  {
    if |cs| == 0 then []
    else
      assert forall x :: x in cs <==> x == cs[0] || x in cs[1..];
      assert cs == [cs[0]] + cs[1..];
      (if ILike(pattern, cs[0].name) then [cs[0]] else []) + NameMatches(cs[1..], pattern)
  }

  /** The rows the list query selects: the company's clients, narrowed by the search when it is not empty. */
  function Selected(clients: seq<Client>, company: Option<int>, search: Option<string>): (r: seq<Client>)
    ensures forall x :: x in r <==>
              x in clients && x.companyId == company && (Truthy(search) ==> ILike(SearchPattern(search.value), x.name))
    ensures multiset(r) <= multiset(clients)
  {
    var mine := Where(clients, ClientCompany, company);
    if Truthy(search) then NameMatches(mine, SearchPattern(search.value)) else mine
  }

  /** `list_clients`: the selected clients, each once, ordered by name. */
  function ListClients(clients: seq<Client>, user: Payload, search: Option<string>): (r: Result<seq<Client>>)
    ensures r.Err? <==> CompanyOf(user).Err?
    ensures r.Err? ==> r.error == CompanyOf(user).error
    ensures r.Ok? ==> multiset(r.value) == multiset(Selected(clients, CompanyOf(user).value, search))
    ensures r.Ok? ==> forall i, j :: 0 <= i < j < |r.value| ==> LexLe(r.value[i].name, r.value[j].name)
    ensures r.Ok? ==> forall x :: x in r.value <==>
              x in clients && x.companyId == CompanyOf(user).value &&
              (Truthy(search) ==> ILike(SearchPattern(search.value), x.name))
  {
    match CompanyOf(user)
    case Err(e) => Err(e)
    case Ok(company) =>
      var rows := Selected(clients, company, search);
      ByNameIsPreorder();
      SortSorted(rows, ByName);
      var sorted := Sort(rows, ByName);
      assert forall x :: x in sorted <==> x in multiset(sorted);
      assert forall x :: x in rows <==> x in multiset(rows);
      Ok(sorted)
  }

  /** A search without wildcards keeps exactly the names that contain it, ignoring ASCII case. */
  lemma SearchIsSubstring(search: string, name: string)
    requires Literal(search)
    ensures ILike(SearchPattern(search), name) <==> Contains(Lower(name), Lower(search))
  {
    ILikeContains(search, name);
  }

  /** `_` in a search is a wildcard: searching for `_` keeps every non-empty name. */
  lemma UnderscoreSearch(name: string)
    ensures ILike(SearchPattern("_"), name) <==> |name| >= 1
  {
    var s := Lower(name);
    assert Lower(SearchPattern("_")) == "%" + "_%";
    LikeLeadingRun("_%", s);
    if |s| >= 1 {
      assert "_%"[1..] == "%";
      LikeAnything(s[1..]);
      assert Like("_%", s[0..]);
    }
  }

  /** `get_client`: the client with this id in the caller's company. */
  function FindClient(clients: seq<Client>, id: int, company: Option<int>): (r: Option<Client>)
    ensures r.None? <==> forall i :: 0 <= i < |clients| ==> !(clients[i].id == id && clients[i].companyId == company)
    ensures r.Some? ==> r.value in clients && r.value.id == id && r.value.companyId == company
    decreases |clients|
  {
    if |clients| == 0 then None
    else if clients[0].id == id && clients[0].companyId == company then Some(clients[0])
    else
      var r := FindClient(clients[1..], id, company);
      assert forall i :: 1 <= i < |clients| ==> clients[i] == clients[1..][i - 1];
      r
  }

  /** Position `i` holds the first client with this id in this company. */
  predicate FirstClientInScope(clients: seq<Client>, i: int, id: int, company: Option<int>) {
    0 <= i < |clients| && clients[i].id == id && clients[i].companyId == company &&
    forall j :: 0 <= j < i ==> !(clients[j].id == id && clients[j].companyId == company)
  }

  /** The client found is the first in scope. */
  lemma {:induction false} FindClientFirst(clients: seq<Client>, id: int, company: Option<int>)
    ensures FindClient(clients, id, company).Some? ==>
              exists i :: FirstClientInScope(clients, i, id, company) && FindClient(clients, id, company).value == clients[i]
    decreases |clients|
  {
    if |clients| > 0 && !(clients[0].id == id && clients[0].companyId == company) {
      var rest := clients[1..];
      FindClientFirst(rest, id, company);
      if FindClient(rest, id, company).Some? {
        var k :| FirstClientInScope(rest, k, id, company) && FindClient(rest, id, company).value == rest[k];
        assert FirstClientInScope(clients, k + 1, id, company) by {
          forall j | 1 <= j < k + 1 ensures clients[j] == rest[j - 1] { }
        }
      }
    } else if |clients| > 0 {
      assert FirstClientInScope(clients, 0, id, company);
    }
  }

  /** `get_client`: 404 for an unknown id and for another company's client alike. */
  function GetClient(clients: seq<Client>, id: int, user: Payload): (r: Result<Client>)
    ensures CompanyOf(user).Err? ==> r == Err(CompanyOf(user).error)
    ensures CompanyOf(user).Ok? ==>
              (r == Err(HttpError(404, "Client not found")) <==>
               forall i :: 0 <= i < |clients| ==> !(clients[i].id == id && clients[i].companyId == CompanyOf(user).value))
    ensures r.Ok? <==>
              CompanyOf(user).Ok? &&
              exists i :: 0 <= i < |clients| && clients[i].id == id && clients[i].companyId == CompanyOf(user).value
    ensures r.Ok? ==> exists i :: FirstClientInScope(clients, i, id, CompanyOf(user).value) && r.value == clients[i]
  {
    match CompanyOf(user)
    case Err(e) => Err(e)
    case Ok(company) =>
      FindClientFirst(clients, id, company);
      match FindClient(clients, id, company)
      case None => Err(HttpError(404, "Client not found"))
      case Some(c) => Ok(c)
  }

  /** Another company's clients play no part: the lookup is the same with them removed. */
  lemma {:induction false} FindClientTenantBlind(clients: seq<Client>, id: int, company: Option<int>)
    ensures FindClient(clients, id, company) == FindClient(Where(clients, ClientCompany, company), id, company)
    decreases |clients|
  {
    if |clients| > 0 {
      FindClientTenantBlind(clients[1..], id, company);
      var w1 := Where(clients[1..], ClientCompany, company);
      WhereStep(clients, company);
      if clients[0].companyId == company {
        FindClientCons(clients[0], w1, id, company);
      } else {
        assert [] + w1 == w1;
      }
    }
  }

  lemma WhereStep(clients: seq<Client>, company: Option<int>)
    requires |clients| > 0
    ensures Where(clients, ClientCompany, company) ==
            (if clients[0].companyId == company then [clients[0]] else []) + Where(clients[1..], ClientCompany, company)
  {
  }

  lemma FindClientCons(c: Client, rest: seq<Client>, id: int, company: Option<int>)
    ensures FindClient([c] + rest, id, company) ==
            if c.id == id && c.companyId == company then Some(c) else FindClient(rest, id, company)
  {
    assert ([c] + rest)[1..] == rest;
  }

  lemma GetClientTenantBlind(clients: seq<Client>, id: int, user: Payload)
    requires CompanyOf(user).Ok?
    ensures GetClient(clients, id, user) == GetClient(Where(clients, ClientCompany, CompanyOf(user).value), id, user)
  {
    FindClientTenantBlind(clients, id, CompanyOf(user).value);
  }
}
