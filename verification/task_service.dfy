/**
 * The service layer: create, read, update and delete over the task
 * repository, with the id rules the service enforces itself.
 */
module Service {
  import opened Wrappers
  import opened JavaStrings
  import opened Model

  const TASK_ID_MANDATORY := "Task ID is mandatory."
  const ID_MISMATCH := "ID in request body does not match ID in path."

  const NOT_FOUND_PREFIX := "Task not found with id: "
  const ALREADY_EXISTS_PREFIX := "A task already exists with this ID: "

  /** Message of the exception thrown when no task has the id; the id can be read back from it. */
  function NotFoundMessage(id: Long): (m: string)
    ensures |m| > |NOT_FOUND_PREFIX| && m[..|NOT_FOUND_PREFIX|] == NOT_FOUND_PREFIX
    ensures IsIntText(m[|NOT_FOUND_PREFIX|..]) && ParseInt(m[|NOT_FOUND_PREFIX|..]) == id
  {
    IntToStringRoundTrip(id);
    var m := NOT_FOUND_PREFIX + IntToString(id);
    assert m[|NOT_FOUND_PREFIX|..] == IntToString(id);
    m
  }

  /** Message of the exception thrown when a create reuses an id; the id can be read back from it. */
  function AlreadyExistsMessage(id: Long): (m: string)
    ensures |m| > |ALREADY_EXISTS_PREFIX| && m[..|ALREADY_EXISTS_PREFIX|] == ALREADY_EXISTS_PREFIX
    ensures IsIntText(m[|ALREADY_EXISTS_PREFIX|..]) && ParseInt(m[|ALREADY_EXISTS_PREFIX|..]) == id
  {
    IntToStringRoundTrip(id);
    var m := ALREADY_EXISTS_PREFIX + IntToString(id);
    assert m[|ALREADY_EXISTS_PREFIX|..] == IntToString(id);
    m
  }

  /** The two messages name the id they were built from, and only it. */
  lemma MessagesNameTheId(id1: Long, id2: Long)
    ensures NotFoundMessage(id1) == NotFoundMessage(id2) <==> id1 == id2
    ensures AlreadyExistsMessage(id1) == AlreadyExistsMessage(id2) <==> id1 == id2
  {
  }

  /** `convertToEntity`: a new entity holding the request's fields, id included. */
  function ConvertToEntity(request: TaskRequestDTO): (task: Task)
    ensures Holds(task, request)
  {
    Task(request.id, request.title, request.description, request.completed, request.dueDate)
  }

  /** `convertToResponseDTO`: a response showing the entity's fields, id included. */
  function ConvertToResponseDTO(task: Task): (response: TaskResponseDTO)
    ensures Shows(response, task)
  {
    TaskResponseDTO(task.id, task.title, task.description, task.completed, task.dueDate)
  }

  /** Storing a request and reading the entity back loses nothing. */
  lemma ConvertRoundTrip(request: TaskRequestDTO)
    ensures Mirrors(ConvertToResponseDTO(ConvertToEntity(request)), request)
    ensures ConvertToEntity(request).id == request.id
  {
  }

  /**
   * The repository call the list endpoint ends in: `findByCompleted` when a
   * filter is given, `findAll` otherwise. Paging and sorting happen inside
   * the repository.
   */
  datatype RepositoryQuery =
    | FindByCompleted(completed: bool, pageable: Pageable)
    | FindAll(pageable: Pageable)

  /** The tasks a repository query ranges over, before paging. */
  predicate Selects(query: RepositoryQuery, task: Task) {
    match query
    case FindByCompleted(c, _) => task.completed == c
    case FindAll(_) => true
  }

  /** Filter dispatch of `getAllTasks`. */
  function GetAllTasks(completed: Option<bool>, pageable: Pageable): (query: RepositoryQuery)
    ensures query.pageable == pageable
    ensures query.FindByCompleted? <==> completed.Some?
    ensures forall t :: Selects(query, t) <==> completed.None? || t.completed == completed.value
  {
    if completed.Some? then FindByCompleted(completed.value, pageable) else FindAll(pageable)
  }

  /**
   * `TaskService` together with the table of its repository, keyed by the
   * entity id.
   */
  class TaskService {
    var tasks: map<Long, Task>

    /** Every stored entity carries the id it is stored under. */
    ghost predicate Valid()
      reads this
    {
      forall id :: id in tasks ==> tasks[id].id == Some(id)
    }

    constructor ()
      ensures Valid() && tasks == map[]
    {
      tasks := map[];
    }

    /** Looks a task up; an absent id fails with the not-found message. */
    function GetTaskById(id: Long): (r: Result<TaskResponseDTO, Exception>)
      reads this
      requires Valid()
      ensures r.Success? <==> id in tasks
      ensures r.Success? ==> r.value.id == Some(id) && r.value == ConvertToResponseDTO(tasks[id])
      ensures r.Failure? ==> r.error == RuntimeException(NotFoundMessage(id))
    {
      if id in tasks then Success(ConvertToResponseDTO(tasks[id]))
      else Failure(RuntimeException(NotFoundMessage(id)))
    }

    /**
     * Stores a new task under the id the client chose. A missing id and a
     * taken id are rejected before anything is stored.
     */
    method CreateTask(request: TaskRequestDTO) returns (r: Result<TaskResponseDTO, Exception>)
      requires Valid()
      modifies this
      ensures Valid()
      ensures request.id.None? ==>
        r == Failure(IllegalArgumentException(TASK_ID_MANDATORY)) && tasks == old(tasks)
      ensures request.id.Some? && request.id.value in old(tasks) ==>
        r == Failure(RuntimeException(AlreadyExistsMessage(request.id.value))) && tasks == old(tasks)
      ensures request.id.Some? && request.id.value !in old(tasks) ==>
        && tasks == old(tasks)[request.id.value := ConvertToEntity(request)]
        && r.Success? && Mirrors(r.value, request)
        && GetTaskById(request.id.value) == r
    {
      if request.id.None? {
        return Failure(IllegalArgumentException(TASK_ID_MANDATORY));
      }
      var id := request.id.value;
      if id in tasks {
        return Failure(RuntimeException(AlreadyExistsMessage(id)));
      }
      var task := ConvertToEntity(request);
      tasks := tasks[id := task];
      r := Success(ConvertToResponseDTO(task));
    }

    /**
     * Replaces the four non-id fields of an existing task. A body id, when
     * present, must equal the path id; the stored id is always the path id.
     */
    method UpdateTask(id: Long, request: TaskRequestDTO) returns (r: Result<TaskResponseDTO, Exception>)
      requires Valid()
      modifies this
      ensures Valid()
      ensures request.id.Some? && request.id.value != id ==>
        r == Failure(IllegalArgumentException(ID_MISMATCH)) && tasks == old(tasks)
      ensures (request.id.None? || request.id.value == id) && id !in old(tasks) ==>
        r == Failure(RuntimeException(NotFoundMessage(id))) && tasks == old(tasks)
      ensures (request.id.None? || request.id.value == id) && id in old(tasks) ==>
        && tasks == old(tasks)[id := Task(Some(id), request.title, request.description, request.completed, request.dueDate)]
        && r.Success? && r.value.id == Some(id)
        && GetTaskById(id) == r
    {
      if request.id.Some? && request.id.value != id {
        return Failure(IllegalArgumentException(ID_MISMATCH));
      }
      if id !in tasks {
        return Failure(RuntimeException(NotFoundMessage(id)));
      }
      var task := tasks[id];
      task := task.(title := request.title);
      task := task.(description := request.description);
      task := task.(completed := request.completed);
      task := task.(dueDate := request.dueDate);
      tasks := tasks[id := task];
      r := Success(ConvertToResponseDTO(task));
    }

    /** Removes the task with the id, if any; an absent id changes nothing. */
    method DeleteTask(id: Long)
      requires Valid()
      modifies this
      ensures Valid()
      ensures tasks == old(tasks) - {id}
      ensures GetTaskById(id) == Failure(RuntimeException(NotFoundMessage(id)))
    {
      tasks := tasks - {id};
    }
  }
}
