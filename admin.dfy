/**
 * The admin endpoints of `backend/routes/admin.py`: the company settings
 * (get-or-create and update), the tenant-scoped job-card list and detail,
 * user counts per company, the status update and the PDF download.
 */
module Admin {
  import opened Common
  import opened Decimal
  import opened Claims
  import opened Sorting
  import opened Models

  /** Where company logos are stored on the volume, and the public prefix they are served under. */
  const LogoDir := "/data/uploads/company/"
  const LogoPublicDir := "/uploads/company/"

  /** `get_company`: the first company, created as `"New Company"` when there is none. */
  method GetCompany(db: Database, now: int) returns (c: Company)
    requires db.Valid()
    modifies db
    ensures db.Valid()
    ensures |old(db.companies)| > 0 ==>
              c == old(db.companies)[0] && db.companies == old(db.companies) && db.nextCompanyId == old(db.nextCompanyId)
    ensures |old(db.companies)| == 0 ==>
              c == Company(old(db.nextCompanyId), "New Company", None, None, None, None, now) && db.companies == [c]
    ensures |db.companies| > 0 && c == db.companies[0]
    ensures db.users == old(db.users) && db.jobcards == old(db.jobcards)
    ensures db.clients == old(db.clients) && db.tasks == old(db.tasks)
  {
    if |db.companies| > 0 {
      c := db.companies[0];
    } else {
      c := db.InsertCompany(Company(0, "New Company", None, None, None, None, now));
    }
  }

  /** Asking twice gives the same row, and at most one company is ever created this way. */
  method GetCompanyTwice(db: Database, now1: int, now2: int) returns (a: Company, b: Company)
    requires db.Valid()
    modifies db
    ensures a == b
    ensures |db.companies| == if |old(db.companies)| == 0 then 1 else |old(db.companies)|
  {
    a := GetCompany(db, now1);
    b := GetCompany(db, now2);
  }

  /** The non-empty parts of a path other than `.`, as `PurePosixPath` keeps them. */
  function Named(parts: seq<string>): (r: seq<string>)
    ensures forall i :: 0 <= i < |r| ==> r[i] != "" && r[i] != "."
    decreases |parts|
  {
    if |parts| == 0 then []
    else (if parts[0] == "" || parts[0] == "." then [] else [parts[0]]) + Named(parts[1..])
  }

  /** `PurePosixPath(p).name`: the last named part, or `""`. */
  function PathName(p: string): string {
    var parts := Named(Split(p, '/'));
    if |parts| == 0 then "" else parts[|parts| - 1]
  }

  /** `PurePosixPath(p).suffix`: from the last dot of the name, unless the name starts or ends with it. */
  function PathSuffix(p: string): (x: string)
    ensures x != "" ==> |x| >= 2 && x[0] == '.' && '.' !in x[1..]
    ensures x != "" ==> |x| < |PathName(p)| && x == PathName(p)[|PathName(p)| - |x|..]
  {
    var name := PathName(p);
    var i := LastIndexOf(name, '.');
    if 0 < i < |name| - 1 then name[i..] else ""
  }

  /** A single part without `/` that is not `.` is its own name. */
  lemma PlainPathName(n: string)
    requires '/' !in n && n != "" && n != "."
    ensures PathName(n) == n
  {
    SplitWithout(n, '/');
    assert Named([n]) == [n];
  }

  /** Under one directory, the name is the last part. */
  lemma NestedPathName(dir: string, n: string)
    requires '/' !in dir && dir != "" && dir != "."
    requires '/' !in n && n != "" && n != "."
    ensures PathName(dir + "/" + n) == n
  {
    SplitTwo(dir, '/', n);
    assert [dir, n][1..] == [n];
    assert Named([n]) == [n];
    assert Named([dir, n]) == [dir, n];
  }

  /** The suffix read off the last dot of the name, wherever it sits. */
  lemma SuffixAt(p: string, name: string, k: int)
    requires PathName(p) == name && 0 <= k < |name| && name[k] == '.'
    requires forall j :: k < j < |name| ==> name[j] != '.'
    ensures PathSuffix(p) == if 0 < k < |name| - 1 then name[k..] else ""
  {
    LastIndexOfAt(name, '.', k);
  }

  /** A name whose last dot is inside it ends in that dot and what follows. */
  lemma DottedSuffix(p: string, stem: string, ext: string)
    requires PathName(p) == stem + "." + ext
    requires stem != "" && ext != "" && '.' !in ext
    ensures PathSuffix(p) == "." + ext
  {
    LastDot(stem, ext);
    SuffixAt(p, stem + "." + ext, |stem|);
  }

  lemma LastDot(stem: string, ext: string)
    requires '.' !in ext
    ensures var n := stem + "." + ext;
            n[|stem|] == '.' && (forall j :: |stem| < j < |n| ==> n[j] != '.') && n[|stem|..] == "." + ext
  {
    var n := stem + "." + ext;
    assert forall j :: |stem| < j < |n| ==> n[j] == ext[j - |stem| - 1];
  }

  /** A name with an inner dot keeps what follows its last dot, such as `.png` of `logo.png`. */
  lemma PathSuffixOfPlainName(stem: string, ext: string)
    requires '/' !in stem && '/' !in ext && stem != "" && ext != "" && '.' !in ext
    ensures PathSuffix(stem + "." + ext) == "." + ext
  {
    var n := stem + "." + ext;
    assert '/' !in n;
    PlainPathName(n);
    DottedSuffix(n, stem, ext);
  }

  /**
   * Only the last suffix of a name counts, and the directory plays no part:
   * `dir/archive.tar.gz` has suffix `.gz`.
   */
  lemma PathSuffixOfNestedName(dir: string, stem: string, ext: string)
    requires '/' !in dir && dir != "" && dir != "."
    requires '/' !in stem && '/' !in ext && stem != "" && ext != "" && '.' !in ext
    ensures PathSuffix(dir + "/" + stem + "." + ext) == "." + ext
  {
    var n := stem + "." + ext;
    assert '/' !in n;
    NestedPathName(dir, n);
    assert dir + "/" + stem + "." + ext == dir + "/" + n;
    DottedSuffix(dir + "/" + n, stem, ext);
  }

  /** A dot-file such as `.bashrc` has no suffix. */
  lemma PathSuffixOfDotFile(rest: string)
    requires '/' !in rest && '.' !in rest && rest != ""
    ensures PathSuffix("." + rest) == ""
  {
    var n := "." + rest;
    assert '/' !in n;
    PlainPathName(n);
    assert forall j :: 0 < j < |n| ==> n[j] == rest[j - 1];
    SuffixAt(n, n, 0);
  }

  /** A name ending in a dot, such as `logo.`, has no suffix either. */
  lemma PathSuffixOfTrailingDot(stem: string)
    requires '/' !in stem && stem != ""
    ensures PathSuffix(stem + ".") == ""
  {
    var n := stem + ".";
    assert '/' !in n;
    PlainPathName(n);
    SuffixAt(n, n, |stem|);
  }

  /** `company.name = ...` and the other form fields; `logo_path` only when a logo came with the form. */
  function Overwrite(c: Company, name: string, address: string, email: string, phone: string,
                     logo: Option<string>): (r: Company)
    ensures r.id == c.id && r.createdAt == c.createdAt
    ensures r.name == name && r.address == Some(address)
    ensures r.contactEmail == Some(email) && r.contactPhone == Some(phone)
    ensures logo.None? ==> r.logoPath == c.logoPath
    ensures logo.Some? ==> r.logoPath == logo
  {
    c.(name := name, address := Some(address), contactEmail := Some(email), contactPhone := Some(phone),
       logoPath := if logo.Some? then logo else c.logoPath)
  }

  /** The stored name of a logo: a fresh hex name and the upload's suffix, `.png` when it has none. */
  function LogoFileName(upload: Upload, hex: Hex32): (n: string)
    ensures |n| > 33 && n[..32] == hex && n[32] == '.'
    ensures PathSuffix(upload.filename) != "" ==> n[32..] == PathSuffix(upload.filename)
    ensures PathSuffix(upload.filename) == "" ==> n[32..] == ".png"
  {
    var ext := PathSuffix(upload.filename);
    hex + (if ext == "" then ".png" else ext)
  }

  /** Logos stored under different fresh names never overwrite each other. */
  lemma LogoNamesDistinct(u1: Upload, h1: Hex32, u2: Upload, h2: Hex32)
    requires h1 != h2
    ensures LogoFileName(u1, h1) != LogoFileName(u2, h2)
  {
    assert LogoFileName(u1, h1)[..32] == h1;
  }

  /**
   * `update_company`: overwrites the first company's settings (creating the
   * company when there is none); a supplied logo is copied, unchanged, to the
   * volume and becomes `logo_path`.
   */
  method UpdateCompany(db: Database, disk: Disk, name: string, address: string, email: string, phone: string,
                       logo: Option<Upload>, hex: Hex32, now: int)
    requires db.Valid()
    modifies db, disk
    ensures db.Valid()
    ensures var logoPath := if logo.Some? then Some(LogoPublicDir + LogoFileName(logo.value, hex)) else None;
            if |old(db.companies)| > 0 then
              db.companies == old(db.companies)[0 := Overwrite(old(db.companies)[0], name, address, email, phone, logoPath)]
            else
              db.companies == [Overwrite(Company(old(db.nextCompanyId), name, None, None, None, None, now),
                                         name, address, email, phone, logoPath)]
    ensures logo.Some? ==> disk.files == old(disk.files)[LogoDir + LogoFileName(logo.value, hex) := logo.value.data]
    ensures logo.None? ==> disk.files == old(disk.files)
    ensures db.users == old(db.users) && db.jobcards == old(db.jobcards)
    ensures db.clients == old(db.clients) && db.tasks == old(db.tasks)
  {
    var logoPath: Option<string> := None;
    if logo.Some? {
      var fname := LogoFileName(logo.value, hex);
      disk.Write(LogoDir + fname, logo.value.data);
      logoPath := Some(LogoPublicDir + fname);
    }
    if |db.companies| == 0 {
      var c := db.InsertCompany(Company(0, name, None, None, None, None, now));
    }
    db.companies := db.companies[0 := Overwrite(db.companies[0], name, address, email, phone, logoPath)];
  }

  /** `/admin/jobcards/<id>/pdf` */
  function PdfLink(id: nat): string {
    "/admin/jobcards/" + NatToString(id) + "/pdf"
  }

  /** The link names its card: the id reads back from it. */
  lemma PdfLinkReadsBack(id: nat)
    ensures var l := PdfLink(id); 16 < |l| - 4 && AllDigits(l[16..|l| - 4]) && Value(l[16..|l| - 4]) == id
  {
    var l := PdfLink(id);
    assert l[16..|l| - 4] == NatToString(id);
  }

  function CardCompany(jc: JobCard): Option<int> { jc.companyId }
  function CardKey(jc: JobCard): int { jc.id }
  function CardScope(jc: JobCard): (int, Option<int>) { (jc.id, jc.companyId) }

  /** Position `i` holds the first card with this id in this company. */
  predicate FirstInScope(cards: seq<JobCard>, i: int, id: int, company: Option<int>) {
    0 <= i < |cards| && cards[i].id == id && cards[i].companyId == company &&
    forall j :: 0 <= j < i ==> !(cards[j].id == id && cards[j].companyId == company)
  }

  /** Position `i` holds the first card with this id, whatever its company. */
  predicate FirstWithId(cards: seq<JobCard>, i: int, id: int) {
    0 <= i < |cards| && cards[i].id == id && forall j :: 0 <= j < i ==> cards[j].id != id
  }

  /** Only one position holds the first card in scope. */
  lemma FirstInScopeUnique(cards: seq<JobCard>, id: int, company: Option<int>)
    ensures forall i, k :: FirstInScope(cards, i, id, company) && FirstInScope(cards, k, id, company) ==> i == k
  {
  }

  /** Only one position holds the first card with an id. */
  lemma FirstWithIdUnique(cards: seq<JobCard>, i: int, id: int)
    requires FirstWithId(cards, i, id)
    ensures forall k :: FirstWithId(cards, k, id) ==> k == i
  {
  }

  /** `ORDER BY created_at DESC` */
  predicate NewestFirst(a: JobCard, b: JobCard) {
    a.createdAt >= b.createdAt
  }

  lemma NewestFirstIsPreorder()
    ensures TotalPreorder(NewestFirst)
  {
  }

  /** The company's cards, newest first. */
  function CompanyCardsNewestFirst(cards: seq<JobCard>, company: Option<int>): (r: seq<JobCard>)
    ensures multiset(r) == multiset(Where(cards, CardCompany, company))
    ensures forall x :: x in r <==> x in cards && x.companyId == company
    ensures forall i, j :: 0 <= i < j < |r| ==> r[i].createdAt >= r[j].createdAt
  {
    NewestFirstIsPreorder();
    var mine := Where(cards, CardCompany, company);
    SortSorted(mine, NewestFirst);
    var r := Sort(mine, NewestFirst);
    assert forall x :: x in r <==> x in multiset(r);
    assert forall x :: x in mine <==> x in multiset(mine);
    r
  }

  /** One row of the job-card list. */
  datatype JobCardSummary = JobCardSummary(
    id: nat, jobNumber: string, clientName: string, technicianName: string,
    hoursWorked: Option<int>, createdAt: int, status: string, pdf: string)

  function Summary(jc: JobCard): (s: JobCardSummary)
    ensures s.id == jc.id && s.pdf == PdfLink(jc.id) && s.createdAt == jc.createdAt
  {
    JobCardSummary(jc.id, jc.jobNumber, jc.clientName, jc.technicianName, jc.hoursWorked, jc.createdAt, jc.status,
                   PdfLink(jc.id))
  }

  /** The list rows of some cards, in the same order. */
  function Summaries(rows: seq<JobCard>): (r: seq<JobCardSummary>)
    ensures |r| == |rows|
    ensures forall k :: 0 <= k < |r| ==> r[k] == Summary(rows[k])
  {
    seq(|rows|, k requires 0 <= k < |rows| => Summary(rows[k]))
  }

  /** `list_jobcards`: for an admin, the caller company's cards, newest first, each with its PDF link. */
  function ListJobCards(cards: seq<JobCard>, user: Payload): (r: Result<seq<JobCardSummary>>)
    ensures !IsAdmin(user) ==> r == Err(HttpError(403, "Admin access required"))
    ensures IsAdmin(user) && CompanyOf(user).Err? ==> r == Err(CompanyOf(user).error)
    ensures r.Ok? <==> IsAdmin(user) && CompanyOf(user).Ok?
    ensures r.Ok? ==> forall k :: 0 <= k < |r.value| ==> r.value[k].pdf == PdfLink(r.value[k].id)
    ensures r.Ok? ==> forall i, j :: 0 <= i < j < |r.value| ==> r.value[i].createdAt >= r.value[j].createdAt
  {
    if !IsAdmin(user) then Err(HttpError(403, "Admin access required"))
    else
      match CompanyOf(user)
      case Err(e) => Err(e)
      case Ok(company) => Ok(Summaries(CompanyCardsNewestFirst(cards, company)))
  }

  /** The list holds a row for every card of the caller's company and for no other card, each card once. */
  lemma ListJobCardsExactlyTheCompany(cards: seq<JobCard>, user: Payload)
    requires IsAdmin(user) && CompanyOf(user).Ok?
    ensures var rows := ListJobCards(cards, user).value;
            var company := CompanyOf(user).value;
            |rows| == |Where(cards, CardCompany, company)| &&
            (forall jc :: jc in cards && jc.companyId == company ==> Summary(jc) in rows) &&
            (forall k :: 0 <= k < |rows| ==> exists jc :: jc in cards && jc.companyId == company && rows[k] == Summary(jc))
  {
    var company := CompanyOf(user).value;
    var mine := CompanyCardsNewestFirst(cards, company);
    var rows := ListJobCards(cards, user).value;
    assert rows == Summaries(mine);
    assert |mine| == |Where(cards, CardCompany, company)| by {
      assert |multiset(mine)| == |multiset(Where(cards, CardCompany, company))|;
    }
    forall jc | jc in cards && jc.companyId == company ensures Summary(jc) in rows {
      var k :| 0 <= k < |mine| && mine[k] == jc;
      assert rows[k] == Summary(jc);
    }
    forall k | 0 <= k < |rows|
      ensures exists jc :: jc in cards && jc.companyId == company && rows[k] == Summary(jc)
    {
      assert mine[k] in mine;
    }
  }

  /** `x or []` on a photo column: `NULL`, an empty list and an empty text all read as `[]`. */
  function OrEmpty(f: PhotoField): (r: PhotoField)
    ensures r != NoneField
    ensures f.ListField? && |f.items| > 0 ==> r == f
    ensures f.TextField? && f.text != "" ==> r == f
  {
    match f
    case NoneField => ListField([])
    case ListField(items) => if |items| == 0 then ListField([]) else f
    case TextField(t) => if t == "" then ListField([]) else f
  }

  /** The card as `get_jobcard` returns it: every column it shows, photo lists defaulted, plus the PDF link. */
  datatype JobCardView = JobCardView(card: JobCard, pdf: string)

  function View(jc: JobCard): (v: JobCardView)
    ensures v.card.id == jc.id && v.pdf == PdfLink(jc.id)
    ensures v.card.materialPhotos != NoneField && v.card.beforePhotos != NoneField && v.card.afterPhotos != NoneField
  {
    JobCardView(jc.(materialPhotos := OrEmpty(jc.materialPhotos), beforePhotos := OrEmpty(jc.beforePhotos),
                    afterPhotos := OrEmpty(jc.afterPhotos)),
                PdfLink(jc.id))
  }

  /** `filter(id == id, company_id == company).first()` on the job cards. */
  function FindCard(cards: seq<JobCard>, id: int, company: Option<int>): (r: Option<JobCard>)
    ensures r.None? <==> forall i :: 0 <= i < |cards| ==> !(cards[i].id == id && cards[i].companyId == company)
    ensures r.Some? ==> r.value in cards && r.value.id == id && r.value.companyId == company
  {
    match FirstWhere(cards, CardScope, (id, company))
    case None => None
    case Some(i) => Some(cards[i])
  }

  /** The card found is the first in scope. */
  lemma FindCardFirst(cards: seq<JobCard>, id: int, company: Option<int>)
    ensures FindCard(cards, id, company).Some? ==>
              exists i :: FirstInScope(cards, i, id, company) && FindCard(cards, id, company).value == cards[i]
  {
    var f := FirstWhere(cards, CardScope, (id, company));
    if f.Some? {
      assert FirstInScope(cards, f.value, id, company);
    }
  }

  /** The lookup looks at the first row, then at the rest. */
  lemma FindCardStep(cards: seq<JobCard>, id: int, company: Option<int>)
    requires |cards| > 0
    ensures FindCard(cards, id, company) ==
              if cards[0].id == id && cards[0].companyId == company then Some(cards[0])
              else FindCard(cards[1..], id, company)
  {
    if !(cards[0].id == id && cards[0].companyId == company) {
      match FirstWhere(cards[1..], CardScope, (id, company))
      case None =>
      case Some(k) => assert cards[k + 1] == cards[1..][k];
    }
  }

  /** Another company's cards play no part: the lookup is the same with them removed. */
  lemma {:induction false} FindCardTenantBlind(cards: seq<JobCard>, id: int, company: Option<int>)
    ensures FindCard(cards, id, company) == FindCard(Where(cards, CardCompany, company), id, company)
    decreases |cards|
  {
    if |cards| > 0 {
      FindCardTenantBlind(cards[1..], id, company);
      FindCardStep(cards, id, company);
      var w := Where(cards, CardCompany, company);
      var w1 := Where(cards[1..], CardCompany, company);
      if cards[0].companyId == company {
        assert w == [cards[0]] + w1;
        assert w[1..] == w1;
        FindCardStep(w, id, company);
      } else {
        assert w == w1;
      }
    }
  }

  /** `get_jobcard`: the card with this id in the caller's company, or 404. */
  function GetJobCard(cards: seq<JobCard>, id: int, user: Payload): (r: Result<JobCardView>)
    ensures CompanyOf(user).Err? ==> r == Err(CompanyOf(user).error)
    ensures CompanyOf(user).Ok? ==>
              (r == Err(HttpError(404, "Jobcard not found")) <==>
               forall i :: 0 <= i < |cards| ==> !(cards[i].id == id && cards[i].companyId == CompanyOf(user).value))
    ensures r.Ok? <==>
              CompanyOf(user).Ok? &&
              exists i :: 0 <= i < |cards| && cards[i].id == id && cards[i].companyId == CompanyOf(user).value
    ensures r.Ok? ==> exists i :: FirstInScope(cards, i, id, CompanyOf(user).value) && r.value == View(cards[i])
  {
    match CompanyOf(user)
    case Err(e) => Err(e)
    case Ok(company) =>
      FindCardFirst(cards, id, company);
      match FindCard(cards, id, company)
      case None => Err(HttpError(404, "Jobcard not found"))
      case Some(jc) => Ok(View(jc))
  }

  /** Another company's cards play no part in what `get_jobcard` answers. */
  lemma GetJobCardTenantBlind(cards: seq<JobCard>, id: int, user: Payload)
    requires CompanyOf(user).Ok?
    ensures GetJobCard(cards, id, user) == GetJobCard(Where(cards, CardCompany, CompanyOf(user).value), id, user)
  {
    FindCardTenantBlind(cards, id, CompanyOf(user).value);
  }

  /** One row of the super-admin company list. */
  datatype CompanyCount = CompanyCount(
    id: nat, name: string, contactEmail: Option<string>, contactPhone: Option<string>, userCount: nat)

  /** The positions of the users that belong to company `cid`. */
  ghost function Members(users: seq<User>, cid: int): set<int> {
    set j | 0 <= j < |users| && users[j].companyId == Some(cid)
  }

  /** Looking at one more user adds its position exactly when it belongs to the company. */
  lemma MembersSnoc(users: seq<User>, cid: int)
    requires |users| > 0
    ensures var k := |users| - 1;
            k !in Members(users[..k], cid) &&
            Members(users, cid) == Members(users[..k], cid) + (if users[k].companyId == Some(cid) then {k} else {})
  {
    var k := |users| - 1;
    assert forall j :: 0 <= j < k ==> users[..k][j] == users[j];
  }

  /** How many users belong to company `cid`. */
  function CountUsers(users: seq<User>, cid: int): (n: nat)
    ensures n == |Members(users, cid)|
    decreases |users|
  {
    if |users| == 0 then 0
    else
      var k := |users| - 1;
      MembersSnoc(users, cid);
      CountUsers(users[..k], cid) + if users[k].companyId == Some(cid) then 1 else 0
  }

  /** `list_companies_with_user_count`: every company once, with its number of users, 0 included. */
  function CompaniesWithUserCount(companies: seq<Company>, users: seq<User>): (r: seq<CompanyCount>)
    ensures |r| == |companies|
    ensures forall i :: 0 <= i < |companies| ==>
              r[i].id == companies[i].id && r[i].name == companies[i].name &&
              r[i].userCount == |Members(users, companies[i].id)|
  {
    seq(|companies|, i requires 0 <= i < |companies| =>
      CompanyCount(companies[i].id, companies[i].name, companies[i].contactEmail, companies[i].contactPhone,
                   CountUsers(users, companies[i].id)))
  }

  /**
   * `update_jobcard_status`: looks the card up by id alone (no tenant or role
   * check), refuses a value outside the three statuses, and changes only
   * `status`.
   */
  method UpdateJobCardStatus(db: Database, id: int, status: string) returns (r: Result<string>)
    requires db.Valid()
    modifies db
    ensures db.Valid()
    ensures r == Err(HttpError(404, "Job card not found")) <==>
              forall i :: 0 <= i < |old(db.jobcards)| ==> old(db.jobcards)[i].id != id
    ensures (exists i :: 0 <= i < |old(db.jobcards)| && old(db.jobcards)[i].id == id) && !IsStatus(status) ==>
              r == Err(HttpError(422, "Invalid status"))
    ensures r.Ok? <==> (exists i :: 0 <= i < |old(db.jobcards)| && old(db.jobcards)[i].id == id) && IsStatus(status)
    ensures r.Err? ==> db.jobcards == old(db.jobcards)
    ensures r.Ok? ==>
              (r.value == status && IsStatus(status) &&
               var k := FirstWhere(old(db.jobcards), CardKey, id).value;
               db.jobcards == old(db.jobcards)[k := old(db.jobcards)[k].(status := status)])
    ensures db.companies == old(db.companies) && db.users == old(db.users)
    ensures db.clients == old(db.clients) && db.tasks == old(db.tasks)
    ensures db.nextCompanyId == old(db.nextCompanyId) && db.nextUserId == old(db.nextUserId)
    ensures db.nextJobCardId == old(db.nextJobCardId) && db.nextClientId == old(db.nextClientId)
    ensures db.nextTaskId == old(db.nextTaskId)
    ensures forall i :: 0 <= i < |db.jobcards| && IsStatus(old(db.jobcards)[i].status) ==> IsStatus(db.jobcards[i].status)
  {
    var found := FirstWhere(db.jobcards, CardKey, id);
    if found.None? {
      r := Err(HttpError(404, "Job card not found"));
    } else if !IsStatus(status) {
      r := Err(HttpError(422, "Invalid status"));
    } else {
      var k := found.value;
      var updated := db.jobcards[k].(status := status);
      assert JobNumberOf(updated) == JobNumberOf(db.jobcards[k]);
      db.jobcards := db.jobcards[k := updated];
      r := Ok(status);
    }
  }

  /** Where the rendered PDF of a job number lives. */
  function PdfDiskPath(jobNumber: string): string {
    "/data/uploads/jobcards/" + jobNumber + ".pdf"
  }

  /** Different job numbers name different PDF files. */
  lemma PdfDiskPathsDistinct(j1: string, j2: string)
    requires j1 != j2
    ensures PdfDiskPath(j1) != PdfDiskPath(j2)
  {
    var d := "/data/uploads/jobcards/";
    if |j1| == |j2| {
      var k :| 0 <= k < |j1| && j1[k] != j2[k];
      assert PdfDiskPath(j1)[|d| + k] == j1[k];
      assert PdfDiskPath(j2)[|d| + k] == j2[k];
    }
  }

  /** `admin_get_jobcard_pdf`: by id alone; 404 for an unknown card and for a PDF not yet on disk. */
  function AdminGetJobCardPdf(cards: seq<JobCard>, id: int, files: set<string>): (r: Result<FileReply>)
    ensures r == Err(HttpError(404, "Job card not found")) <==> forall i :: 0 <= i < |cards| ==> cards[i].id != id
    ensures r == Err(HttpError(404, "PDF missing")) <==>
              exists i :: FirstWithId(cards, i, id) && PdfDiskPath(cards[i].jobNumber) !in files
    ensures r.Ok? <==> exists i :: FirstWithId(cards, i, id) && PdfDiskPath(cards[i].jobNumber) in files
    ensures r.Ok? ==>
              (r.value.path in files && r.value.mediaType == "application/pdf" &&
               exists i :: FirstWithId(cards, i, id) && r.value.path == PdfDiskPath(cards[i].jobNumber) &&
                 r.value.downloadName == cards[i].jobNumber + ".pdf")
  {
    match FirstWhere(cards, CardKey, id)
    case None => Err(HttpError(404, "Job card not found"))
    case Some(i) =>
      FirstWithIdUnique(cards, i, id);
      var path := PdfDiskPath(cards[i].jobNumber);
      if path !in files then Err(HttpError(404, "PDF missing"))
      else Ok(FileReply(path, "application/pdf", cards[i].jobNumber + ".pdf"))
  }
}
