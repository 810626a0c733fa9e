/**
 * The REST controller for /api/tasks: list-parameter defaults and sort
 * parsing, the status of each endpoint, and the response the exception
 * handler substitutes when the service throws.
 */
module Controller {
  import opened Wrappers
  import opened JavaStrings
  import opened Model
  import opened Service
  import opened ExceptionHandling
  import opened Classification

  const OK := 200
  const ACCEPTED := 202
  const NO_CONTENT := 204

  const DEFAULT_PAGE: Int := 0
  const DEFAULT_SIZE: Int := 10
  /** The default "id,desc", as Spring splits it into the `String[] sort` parameter. */
  const DEFAULT_SORT: seq<string> := ["id", "desc"]

  datatype ResponseBody =
    | TaskJson(task: TaskResponseDTO)
    | ErrorJson(fields: map<string, string>)
    | NoContent

  datatype HttpResponse = HttpResponse(status: int, body: ResponseBody)

  /**
   * What leaves the server for an endpoint's outcome: its success status and
   * the task, or, when the service threw, the exception handler's response.
   */
  function Respond(result: Result<TaskResponseDTO, Exception>, successStatus: int): (response: HttpResponse)
    ensures result.Success? ==> response == HttpResponse(successStatus, TaskJson(result.value))
    ensures result.Failure? ==>
      && response.status == HandleException(result.error).status
      && response.body == ErrorJson(ErrorBody(result.error.message))
  {
    match result
    case Success(task) => HttpResponse(successStatus, TaskJson(task))
    case Failure(ex) =>
      var entity := HandleException(ex);
      HttpResponse(entity.status, ErrorJson(entity.body))
  }

  const INDEX_PREFIX := "Index "
  const LENGTH_INFIX := " out of bounds for length "

  /**
   * Message of the exception Java throws for `sort[index]` on a shorter
   * array: it opens with "Index " and the array's length can be read back
   * from its end.
   */
  function IndexOutOfBoundsMessage(index: int, length: int): (m: string)
    ensures |m| > |INDEX_PREFIX| && m[..|INDEX_PREFIX|] == INDEX_PREFIX
    ensures var n := |IntToString(length)|;
      n < |m| && IsIntText(m[|m| - n..]) && ParseInt(m[|m| - n..]) == length
  {
    IntToStringRoundTrip(length);
    var tail := IntToString(length);
    var m := INDEX_PREFIX + IntToString(index) + LENGTH_INFIX + tail;
    assert m[|m| - |tail|..] == tail;
    m
  }

  class TaskController {
    const taskService: TaskService

    constructor (taskService: TaskService)
      ensures this.taskService == taskService
    {
      this.taskService := taskService;
    }

    /**
     * `getAllTasks`: fills in the defaults, reads the direction from
     * `sort[1]` and the property from `sort[0]`, and hands the filter to the
     * service unchanged. The result is the repository query that follows.
     */
    static function GetAllTasks(completed: Option<bool>, page: Option<Int>, size: Option<Int>, sort: Option<seq<string>>)
      : (r: Result<RepositoryQuery, Exception>)
      ensures var s := sort.GetOr(DEFAULT_SORT);
        && (r.Success? <==> |s| >= 2)
        && (r.Failure? ==> r.error == RuntimeException(IndexOutOfBoundsMessage(1, |s|)))
        && (r.Success? ==>
              && r.value.pageable.page == page.GetOr(DEFAULT_PAGE)
              && r.value.pageable.size == size.GetOr(DEFAULT_SIZE)
              && r.value.pageable.property == s[0]
              && (r.value.pageable.direction == ASC <==> EqualsIgnoreCase(s[1], "asc"))
              && (r.value.FindByCompleted? <==> completed.Some?)
              && (completed.Some? ==> r.value.completed == completed.value))
    {
      var s := sort.GetOr(DEFAULT_SORT);
      if |s| < 2 then
        Failure(RuntimeException(IndexOutOfBoundsMessage(1, |s|)))
      else
        var direction := if EqualsIgnoreCase(s[1], "asc") then ASC else DESC;
        var pageable := PageRequest(page.GetOr(DEFAULT_PAGE), size.GetOr(DEFAULT_SIZE), direction, s[0]);
        Success(Service.GetAllTasks(completed, pageable))
    }

    /** `getTaskById`: 200 with the task, or 404 with the not-found message. */
    method GetTaskById(id: Long) returns (response: HttpResponse)
      requires taskService.Valid()
      ensures response.status == OK <==> id in taskService.tasks
      ensures id in taskService.tasks ==>
        response.body == TaskJson(ConvertToResponseDTO(taskService.tasks[id]))
      ensures id !in taskService.tasks ==>
        response == HttpResponse(NOT_FOUND, ErrorJson(ErrorBody(NotFoundMessage(id))))
    {
      var r := taskService.GetTaskById(id);
      NotFoundMessageIs404(id);
      response := Respond(r, OK);
    }

    /** `createTask`: 202 with the stored task; 400 without an id; 409 on a taken id. */
    method CreateTask(request: TaskRequestDTO) returns (response: HttpResponse)
      requires taskService.Valid()
      modifies taskService
      ensures taskService.Valid()
      ensures request.id.None? ==>
        && response == HttpResponse(BAD_REQUEST, ErrorJson(ErrorBody(TASK_ID_MANDATORY)))
        && taskService.tasks == old(taskService.tasks)
      ensures request.id.Some? && request.id.value in old(taskService.tasks) ==>
        && response == HttpResponse(CONFLICT, ErrorJson(ErrorBody(AlreadyExistsMessage(request.id.value))))
        && taskService.tasks == old(taskService.tasks)
      ensures request.id.Some? && request.id.value !in old(taskService.tasks) ==>
        && response.status == ACCEPTED && response.body.TaskJson? && Mirrors(response.body.task, request)
        && taskService.tasks == old(taskService.tasks)[request.id.value := ConvertToEntity(request)]
    {
      var r := taskService.CreateTask(request);
      ArgumentErrorsAre400();
      if request.id.Some? {
        AlreadyExistsMessageIs409(request.id.value);
      }
      response := Respond(r, ACCEPTED);
    }

    /**
     * `updateTask`: 200 with the task under the path id; 400 when the body
     * names another id; 404 when the path id is absent.
     */
    method UpdateTask(id: Long, request: TaskRequestDTO) returns (response: HttpResponse)
      requires taskService.Valid()
      modifies taskService
      ensures taskService.Valid()
      ensures request.id.Some? && request.id.value != id ==>
        && response == HttpResponse(BAD_REQUEST, ErrorJson(ErrorBody(ID_MISMATCH)))
        && taskService.tasks == old(taskService.tasks)
      ensures (request.id.None? || request.id.value == id) && id !in old(taskService.tasks) ==>
        && response == HttpResponse(NOT_FOUND, ErrorJson(ErrorBody(NotFoundMessage(id))))
        && taskService.tasks == old(taskService.tasks)
      ensures (request.id.None? || request.id.value == id) && id in old(taskService.tasks) ==>
        && response.status == OK
        && response.body == TaskJson(
             TaskResponseDTO(Some(id), request.title, request.description, request.completed, request.dueDate))
        && taskService.tasks == old(taskService.tasks)[id :=
             Task(Some(id), request.title, request.description, request.completed, request.dueDate)]
    {
      var r := taskService.UpdateTask(id, request);
      ArgumentErrorsAre400();
      NotFoundMessageIs404(id);
      response := Respond(r, OK);
    }

    /** `deleteTask`: always 204; the id is gone afterwards. */
    method DeleteTask(id: Long) returns (response: HttpResponse)
      requires taskService.Valid()
      modifies taskService
      ensures taskService.Valid()
      ensures response == HttpResponse(NO_CONTENT, NoContent)
      ensures taskService.tasks == old(taskService.tasks) - {id}
    {
      taskService.DeleteTask(id);
      response := HttpResponse(NO_CONTENT, NoContent);
    }
  }

  /** With no parameters the list is the first ten tasks by descending id, unfiltered. */
  lemma GetAllTasksDefaults()
    ensures TaskController.GetAllTasks(None, None, None, None) == Success(FindAll(PageRequest(0, 10, DESC, "id")))
  {
    EqualsIgnoreCaseAsc("desc");
  }

  /** Only the eight spellings of "asc" sort ascending; anything else, "desc" included, descends. */
  lemma SortDirection(completed: Option<bool>, field: string, order: string)
    ensures var r := TaskController.GetAllTasks(completed, None, None, Some([field, order]));
      && r.Success? && r.value.pageable.property == field
      && (r.value.pageable.direction == ASC <==>
            |order| == 3 && (order[0] == 'a' || order[0] == 'A') && (order[1] == 's' || order[1] == 'S')
                         && (order[2] == 'c' || order[2] == 'C'))
  {
    EqualsIgnoreCaseAsc(order);
  }
}
