/**
 * The tables of `backend/models.py` as records, the column constraints as
 * predicates, and the database and the upload volume as objects whose
 * contents the handlers change.
 *
 * A column declared `nullable=False` is an `Option` here only where a handler
 * can hand it `None`; `Persistable` then says what the insert demands.
 * Timestamps are whole seconds of an abstract clock; `hours_worked` is in
 * hundredths of an hour.
 */
module Models {
  import opened Common

  datatype Company = Company(
    id: nat,
    name: string,
    address: Option<string>,
    contactEmail: Option<string>,
    contactPhone: Option<string>,
    logoPath: Option<string>,
    createdAt: int)

  datatype User = User(
    id: nat,
    name: string,
    email: string,
    passwordHash: string,
    role: string,
    companyId: Option<int>,
    isActive: bool,
    createdAt: int,
    resetToken: Option<string>,
    resetTokenExpiry: Option<int>)

  /** A JSON photo column: `NULL`, a list of paths, or (in older rows) one comma-separated text. */
  datatype PhotoField = NoneField | ListField(items: seq<string>) | TextField(text: string)

  datatype JobCard = JobCard(
    id: nat,
    jobNumber: string,
    clientId: Option<int>,
    companyId: Option<int>,
    createdBy: Option<int>,
    clientName: string,
    siteAddress: string,
    contactPerson: string,
    contactNumber: Option<string>,
    technicianName: string,
    arrivalTime: Option<string>,
    departureTime: Option<string>,
    hoursWorked: Option<int>,
    instructionGivenBy: Option<string>,
    customerEmail: Option<string>,
    jobDescription: string,
    materialsUsed: Option<string>,
    materialPhotos: PhotoField,
    signaturePath: Option<string>,
    beforePhotos: PhotoField,
    afterPhotos: PhotoField,
    status: string,
    createdAt: int)

  datatype Client = Client(
    id: nat,
    companyId: Option<int>,
    clientCode: Option<string>,
    name: string,
    siteAddress: Option<string>,
    contactPerson: Option<string>,
    contactNumber: Option<string>,
    email: Option<string>,
    createdAt: int)

  /** A booking; `backend/models.py` has no such table, so its columns are those the task handlers use. */
  datatype Task = Task(
    id: nat,
    companyId: Option<int>,
    clientId: int,
    title: string,
    description: Option<string>,
    start: int,
    end: int,
    createdBy: Option<int>,
    status: string)

  /** What an image decoder makes of an upload: not an image, or one with or without alpha and its re-encoding. */
  datatype ImageOutcome = NotAnImage | Image(hasAlpha: bool, reencoded: seq<byte>)

  /** A file of a multipart form: its client-side name, its bytes, and what the image library makes of them. */
  datatype Upload = Upload(filename: string, data: seq<byte>, decoded: ImageOutcome)

  /** A `FileResponse`: the file on disk, its media type and the download name. */
  datatype FileReply = FileReply(path: string, mediaType: string, downloadName: string)

  /** Column defaults. */
  const DefaultRole := "technician"
  const DefaultStatus := "submitted"

  /** The three values a job card's status may take. */
  predicate IsStatus(s: string) {
    s == "submitted" || s == "processed" || s == "completed"
  }

  /** The column default is one of the three statuses. */
  lemma DefaultStatusIsStatus()
    ensures IsStatus(DefaultStatus)
  {
  }

  /** The job-card columns declared `nullable=False` that the submission can leave empty. */
  predicate JobCardPersistable(jc: JobCard) {
    jc.contactNumber.Some? && jc.materialsUsed.Some? && jc.signaturePath.Some?
  }

  /** `clients.company_id` is declared `nullable=False`. */
  predicate ClientPersistable(c: Client) {
    c.companyId.Some?
  }

  /** Ids are handed out in increasing order and stay below the table's counter. */
  predicate IdsBelow<T>(s: seq<T>, id: T -> nat, next: nat) {
    (forall i :: 0 <= i < |s| ==> id(s[i]) < next) &&
    (forall i, j :: 0 <= i < j < |s| ==> id(s[i]) < id(s[j]))
  }

  /** A column declared `unique=True`. */
  predicate Unique<T>(s: seq<T>, key: T -> string) {
    forall i, j :: 0 <= i < j < |s| ==> key(s[i]) != key(s[j])
  }

  function JobNumberOf(jc: JobCard): string { jc.jobNumber }
  function EmailOf(u: User): string { u.email }

  /** The `job_number` column, in table order. */
  function JobNumbers(cards: seq<JobCard>): (r: seq<string>)
    ensures |r| == |cards| && forall i :: 0 <= i < |cards| ==> r[i] == cards[i].jobNumber
  {
    seq(|cards|, i requires 0 <= i < |cards| => cards[i].jobNumber)
  }

  /** A job number is taken iff some stored card carries it. */
  lemma JobNumbersTaken(cards: seq<JobCard>, n: string)
    ensures n in JobNumbers(cards) <==> exists i :: 0 <= i < |cards| && cards[i].jobNumber == n
  {
    var r := JobNumbers(cards);
    if n in r {
      var k :| 0 <= k < |r| && r[k] == n;
      assert cards[k].jobNumber == n;
    }
  }

  /** The in-memory tables with one id counter each. */
  class Database {
    var companies: seq<Company>
    var users: seq<User>
    var jobcards: seq<JobCard>
    var clients: seq<Client>
    var tasks: seq<Task>
    var nextCompanyId: nat
    var nextUserId: nat
    var nextJobCardId: nat
    var nextClientId: nat
    var nextTaskId: nat

    /** What the schema guarantees of every stored row. */
    predicate Valid()
      reads this
    {
      IdsBelow(companies, (c: Company) => c.id, nextCompanyId) &&
      IdsBelow(users, (u: User) => u.id, nextUserId) &&
      IdsBelow(jobcards, (jc: JobCard) => jc.id, nextJobCardId) &&
      IdsBelow(clients, (c: Client) => c.id, nextClientId) &&
      IdsBelow(tasks, (t: Task) => t.id, nextTaskId) &&
      Unique(users, EmailOf) &&
      Unique(jobcards, JobNumberOf) &&
      (forall i :: 0 <= i < |jobcards| ==> JobCardPersistable(jobcards[i])) &&
      (forall i :: 0 <= i < |clients| ==> ClientPersistable(clients[i]))
    }

    constructor()
      ensures Valid()
      ensures companies == [] && users == [] && jobcards == [] && clients == [] && tasks == []
    {
      companies, users, jobcards, clients, tasks := [], [], [], [], [];
      nextCompanyId, nextUserId, nextJobCardId, nextClientId, nextTaskId := 1, 1, 1, 1, 1;
    }

    /** `db.add(company); db.commit()`: the row gets the next id. */
    method InsertCompany(c: Company) returns (row: Company)
      requires Valid()
      modifies this
      ensures Valid()
      ensures row == c.(id := old(nextCompanyId)) && companies == old(companies) + [row]
      ensures nextCompanyId == old(nextCompanyId) + 1
      ensures users == old(users) && jobcards == old(jobcards) && clients == old(clients) && tasks == old(tasks)
      ensures nextUserId == old(nextUserId) && nextJobCardId == old(nextJobCardId)
      ensures nextClientId == old(nextClientId) && nextTaskId == old(nextTaskId)
    {
      row := c.(id := nextCompanyId);
      companies := companies + [row];
      nextCompanyId := nextCompanyId + 1;
    }

    /** `db.add(user); db.commit()`: `IntegrityError` when the email is taken. */
    method InsertUser(u: User) returns (r: Result<User>)
      requires Valid()
      modifies this
      ensures Valid()
      ensures r.Err? <==> exists i :: 0 <= i < |old(users)| && old(users)[i].email == u.email
      ensures r.Err? ==> r.error == Crash("IntegrityError") && users == old(users) && nextUserId == old(nextUserId)
      ensures r.Ok? ==> r.value == u.(id := old(nextUserId)) && users == old(users) + [r.value] &&
                        nextUserId == old(nextUserId) + 1
      ensures companies == old(companies) && jobcards == old(jobcards) && clients == old(clients) && tasks == old(tasks)
      ensures nextCompanyId == old(nextCompanyId) && nextJobCardId == old(nextJobCardId)
      ensures nextClientId == old(nextClientId) && nextTaskId == old(nextTaskId)
    {
      if exists i :: 0 <= i < |users| && users[i].email == u.email {
        r := Err(Crash("IntegrityError"));
      } else {
        var row := u.(id := nextUserId);
        users := users + [row];
        nextUserId := nextUserId + 1;
        r := Ok(row);
      }
    }

    /** `db.add(jobcard); db.commit()`: `IntegrityError` on a missing non-null column or a taken job number. */
    method InsertJobCard(jc: JobCard) returns (r: Result<JobCard>)
      requires Valid()
      modifies this
      ensures Valid()
      ensures r.Err? <==> !JobCardPersistable(jc) ||
                          exists i :: 0 <= i < |old(jobcards)| && old(jobcards)[i].jobNumber == jc.jobNumber
      ensures r.Err? ==> r.error == Crash("IntegrityError") && jobcards == old(jobcards) &&
                         nextJobCardId == old(nextJobCardId)
      ensures r.Ok? ==> r.value == jc.(id := old(nextJobCardId)) && jobcards == old(jobcards) + [r.value] &&
                        nextJobCardId == old(nextJobCardId) + 1
      ensures companies == old(companies) && users == old(users) && clients == old(clients) && tasks == old(tasks)
      ensures nextCompanyId == old(nextCompanyId) && nextUserId == old(nextUserId)
      ensures nextClientId == old(nextClientId) && nextTaskId == old(nextTaskId)
    {
      if !JobCardPersistable(jc) || exists i :: 0 <= i < |jobcards| && jobcards[i].jobNumber == jc.jobNumber {
        r := Err(Crash("IntegrityError"));
      } else {
        var row := jc.(id := nextJobCardId);
        jobcards := jobcards + [row];
        nextJobCardId := nextJobCardId + 1;
        r := Ok(row);
      }
    }

    /** `db.add(client); db.commit()`: `IntegrityError` when the company is `NULL`. */
    method InsertClient(c: Client) returns (r: Result<Client>)
      requires Valid()
      modifies this
      ensures Valid()
      ensures r.Err? <==> !ClientPersistable(c)
      ensures r.Err? ==> r.error == Crash("IntegrityError") && clients == old(clients) && nextClientId == old(nextClientId)
      ensures r.Ok? ==> r.value == c.(id := old(nextClientId)) && clients == old(clients) + [r.value] &&
                        nextClientId == old(nextClientId) + 1
      ensures companies == old(companies) && users == old(users) && jobcards == old(jobcards) && tasks == old(tasks)
      ensures nextCompanyId == old(nextCompanyId) && nextUserId == old(nextUserId)
      ensures nextJobCardId == old(nextJobCardId) && nextTaskId == old(nextTaskId)
    {
      if !ClientPersistable(c) {
        r := Err(Crash("IntegrityError"));
      } else {
        var row := c.(id := nextClientId);
        clients := clients + [row];
        nextClientId := nextClientId + 1;
        r := Ok(row);
      }
    }

    /** `db.add(task); db.commit()` */
    method InsertTask(t: Task) returns (row: Task)
      requires Valid()
      modifies this
      ensures Valid()
      ensures row == t.(id := old(nextTaskId)) && tasks == old(tasks) + [row] && nextTaskId == old(nextTaskId) + 1
      ensures companies == old(companies) && users == old(users) && jobcards == old(jobcards) && clients == old(clients)
      ensures nextCompanyId == old(nextCompanyId) && nextUserId == old(nextUserId)
      ensures nextJobCardId == old(nextJobCardId) && nextClientId == old(nextClientId)
    {
      row := t.(id := nextTaskId);
      tasks := tasks + [row];
      nextTaskId := nextTaskId + 1;
    }
  }

  predicate IsHexDigit(c: char) {
    '0' <= c <= '9' || 'a' <= c <= 'f'
  }

  /**
   * A name from `uuid.uuid4().hex`. Its 32 lower-case hexadecimal digits are
   * reduced here to the two facts the paths depend on: the length, and a first
   * character that is a hexadecimal digit (so never `/`).
   */
  type Hex32 = h: string | |h| == 32 && IsHexDigit(h[0])
    witness "00000000000000000000000000000000"

  /** The upload volume mounted at `/data`: file contents by absolute path. */
  class Disk {
    var files: map<string, seq<byte>>

    constructor()
      ensures files == map[]
    {
      files := map[];
    }

    /** `open(path, "wb").write(data)`: creates or replaces one file. */
    method Write(path: string, data: seq<byte>)
      modifies this
      ensures files == old(files)[path := data]
    {
      files := files[path := data];
    }
  }
}
