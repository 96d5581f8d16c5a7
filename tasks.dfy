/**
 * The booking routes of `backend/routes/tasks.py`: a task belongs to a client
 * of the caller's company and runs from a start to a strictly later end.
 * Times are whole seconds; the creator is read from the caller's token.
 */
module Tasks {
  import opened Common
  import opened Claims
  import opened Sorting
  import opened Models
  import opened Clients

  /** The JSON body of a create request. */
  datatype TaskCreate = TaskCreate(clientId: int, title: string, description: Option<string>, start: int, end: int)

  /** The row `create_task` adds: the caller's company and id, status `"open"`. */
  function NewTask(req: TaskCreate, company: Option<int>, createdBy: Option<int>): (t: Task)
    ensures t.companyId == company && t.createdBy == createdBy && t.status == "open"
    ensures t.clientId == req.clientId && t.start == req.start && t.end == req.end
  {
    Task(0, company, req.clientId, req.title, req.description, req.start, req.end, createdBy, "open")
  }

  /** The request's client is one of the caller's company. */
  predicate ClientOfCompany(clients: seq<Client>, clientId: int, company: Option<int>) {
    exists i :: 0 <= i < |clients| && clients[i].id == clientId && clients[i].companyId == company
  }

  /**
   * `create_task`: the caller's company and id are read first, then the client is looked up
   * in that company (404), then the times are checked (400); only then is one task added.
   */
  method CreateTask(db: Database, user: Payload, req: TaskCreate) returns (r: Result<Task>)
    requires db.Valid()
    modifies db
    ensures db.Valid()
    ensures CompanyOf(user).Err? ==> r == Err(CompanyOf(user).error)
    ensures CompanyOf(user).Ok? && CallerId(user).Err? ==> r == Err(CallerId(user).error)
    ensures CompanyOf(user).Ok? && CallerId(user).Ok? ==>
              (r == Err(HttpError(404, "Client not found")) <==>
               !ClientOfCompany(old(db.clients), req.clientId, CompanyOf(user).value))
    ensures CompanyOf(user).Ok? && CallerId(user).Ok? && ClientOfCompany(old(db.clients), req.clientId, CompanyOf(user).value) ==>
              (r == Err(HttpError(400, "End time must be after start time")) <==> req.end <= req.start)
    ensures r.Ok? <==>
              CompanyOf(user).Ok? && CallerId(user).Ok? &&
              ClientOfCompany(old(db.clients), req.clientId, CompanyOf(user).value) && req.start < req.end
    ensures r.Err? ==> db.tasks == old(db.tasks) && db.nextTaskId == old(db.nextTaskId)
    ensures r.Ok? ==>
              r.value == NewTask(req, CompanyOf(user).value, CallerId(user).value).(id := old(db.nextTaskId)) &&
              db.tasks == old(db.tasks) + [r.value] && db.nextTaskId == old(db.nextTaskId) + 1
    ensures db.companies == old(db.companies) && db.users == old(db.users)
    ensures db.jobcards == old(db.jobcards) && db.clients == old(db.clients)
  {
    var company := CompanyOf(user);
    if company.Err? {
      r := Err(company.error);
      return;
    }
    var userId := CallerId(user);
    if userId.Err? {
      r := Err(userId.error);
      return;
    }
    var client := FindClient(db.clients, req.clientId, company.value);
    if client.None? {
      r := Err(HttpError(404, "Client not found"));
      return;
    }
    if req.end <= req.start {
      r := Err(HttpError(400, "End time must be after start time"));
      return;
    }
    var row := db.InsertTask(NewTask(req, company.value, userId.value));
    r := Ok(row);
  }

  /** `filter(Task.client_id == client_id, Task.company_id == company_id)` */
  function TaskScope(t: Task): (int, Option<int>) { (t.clientId, t.companyId) }

  /** `order_by(Task.start_datetime.asc())` */
  predicate ByStart(a: Task, b: Task) {
    a.start <= b.start
  }

  lemma ByStartIsPreorder()
    ensures TotalPreorder(ByStart)
  {
  }

  /** `get_tasks_for_client`: the client's tasks within the caller's company, each once, earliest start first. */
  function GetTasksForClient(tasks: seq<Task>, clientId: int, user: Payload): (r: Result<seq<Task>>)
    ensures r.Err? <==> CompanyOf(user).Err?
    ensures r.Err? ==> r.error == CompanyOf(user).error
    ensures r.Ok? ==> multiset(r.value) == multiset(Where(tasks, TaskScope, (clientId, CompanyOf(user).value)))
    ensures r.Ok? ==> forall x :: x in r.value <==> x in tasks && x.clientId == clientId && x.companyId == CompanyOf(user).value
    ensures r.Ok? ==> forall i, j :: 0 <= i < j < |r.value| ==> r.value[i].start <= r.value[j].start
  {
    match CompanyOf(user)
    case Err(e) => Err(e)
    case Ok(company) =>
      var rows := Where(tasks, TaskScope, (clientId, company));
      ByStartIsPreorder();
      SortSorted(rows, ByStart);
      var sorted := Sort(rows, ByStart);
      assert forall x :: x in sorted <==> x in multiset(sorted);
      assert forall x :: x in rows <==> x in multiset(rows);
      Ok(sorted)
  }

  /** A task just added is listed for its client to a caller of the same company. */
  lemma CreatedTaskIsListed(tasks: seq<Task>, row: Task, user: Payload)
    requires CompanyOf(user).Ok? && row.companyId == CompanyOf(user).value
    ensures GetTasksForClient(tasks + [row], row.clientId, user).Ok?
    ensures row in GetTasksForClient(tasks + [row], row.clientId, user).value
  {
    assert (tasks + [row])[|tasks|] == row;
  }

  /** A caller of another company never sees the task, whichever client id they ask for. */
  lemma OtherCompanyNeverSees(tasks: seq<Task>, row: Task, clientId: int, user: Payload)
    requires CompanyOf(user).Ok? && row.companyId != CompanyOf(user).value
    ensures GetTasksForClient(tasks + [row], clientId, user).Ok?
    ensures multiset(GetTasksForClient(tasks + [row], clientId, user).value) ==
            multiset(GetTasksForClient(tasks, clientId, user).value)
  {
    WhereSkips(tasks, row, (clientId, CompanyOf(user).value));
  }

  lemma {:induction false} WhereSkips(tasks: seq<Task>, row: Task, v: (int, Option<int>))
    requires TaskScope(row) != v
    ensures Where(tasks + [row], TaskScope, v) == Where(tasks, TaskScope, v)
    decreases |tasks|
  {
    if |tasks| > 0 {
      assert (tasks + [row])[1..] == tasks[1..] + [row];
      WhereSkips(tasks[1..], row, v);
    } else {
      assert ([] + [row])[1..] == [];
    }
  }
}
