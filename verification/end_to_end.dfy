/**
 * Server and client together: the JSON error body the backend sends is what
 * the interceptor reads, so the service's message texts reach the user.
 */
module EndToEnd {
  import opened Wrappers
  import opened JavaStrings
  import opened Model
  import opened Service
  import opened ExceptionHandling
  import opened Classification
  import opened Controller
  import Client = HttpErrorInterceptor

  /**
   * The failed response as the browser reports it: the server's status, the
   * transport's own description, and the body's "message" property if any.
   */
  function ClientView(response: HttpResponse, transportMessage: string): (e: Client.HttpErrorResponse)
    ensures e.status == response.status && e.message == transportMessage && e.error.ServerBody?
    ensures e.error.bodyMessage.Some? <==> response.body.ErrorJson? && "message" in response.body.fields
    ensures e.error.bodyMessage.Some? ==> e.error.bodyMessage.value == response.body.fields["message"]
  {
    var message :=
      if response.body.ErrorJson? && "message" in response.body.fields
      then Some(response.body.fields["message"]) else None;
    Client.HttpErrorResponse(response.status, transportMessage, Client.ServerBody(message))
  }

  /**
   * The duplicate-id message says "already exists with this ID" in exactly
   * those letters, hence also "already exists".
   */
  lemma AlreadyExistsMessageSaysSo(id: Long)
    ensures Contains(AlreadyExistsMessage(id), "already exists with this ID")
    ensures Contains(AlreadyExistsMessage(id), "already exists")
  {
    var phrase := "already exists with this ID";
    assert AlreadyExistsMessage(id) == "A task " + phrase + (": " + IntToString(id));
    OccursImpliesContains(phrase, phrase, 0);
    ContainsInMiddle("A task ", phrase, ": " + IntToString(id), phrase);
    AlreadyExistsMessageParts(id);
    OccursImpliesContains("already exists", "already exists", 0);
    ContainsInMiddle("A task ", "already exists", " with this ID: " + IntToString(id), "already exists");
  }

  /** A duplicate create is alerted with the server's text, which says "already exists". */
  lemma DuplicateIdAlert(id: Long, transportMessage: string)
    ensures var server := HttpResponse(CONFLICT, ErrorJson(ErrorBody(AlreadyExistsMessage(id))));
      && Client.ErrorMessage(ClientView(server, transportMessage)) == AlreadyExistsMessage(id)
      && Contains(Client.ErrorMessage(ClientView(server, transportMessage)), "already exists")
  {
    var server := HttpResponse(CONFLICT, ErrorJson(ErrorBody(AlreadyExistsMessage(id))));
    AlreadyExistsMessageSaysSo(id);
    Client.ConflictKeepsServerWords(ClientView(server, transportMessage), "already exists");
  }

  /** A missing task is alerted with the client's fixed text, not the server's. */
  lemma MissingTaskAlert(id: Long, transportMessage: string)
    ensures var server := HttpResponse(NOT_FOUND, ErrorJson(ErrorBody(NotFoundMessage(id))));
      Client.ErrorMessage(ClientView(server, transportMessage)) == Client.NOT_FOUND_TEXT
  {
  }

  /** A create without an id is alerted with the service's own message. */
  lemma MissingIdAlert(transportMessage: string)
    ensures var server := HttpResponse(BAD_REQUEST, ErrorJson(ErrorBody(TASK_ID_MANDATORY)));
      Client.ErrorMessage(ClientView(server, transportMessage)) == TASK_ID_MANDATORY
  {
  }

  /**
   * Submitting the same task twice: whether or not the first submission
   * succeeds, the second ends in a 409 whose alert says "already exists".
   */
  method SubmitTwice(controller: TaskController, request: TaskRequestDTO, transportMessage: string)
    returns (second: HttpResponse, alert: string)
    requires controller.taskService.Valid() && request.id.Some?
    modifies controller.taskService
    ensures controller.taskService.Valid()
    ensures second.status == CONFLICT
    ensures alert == Client.ErrorMessage(ClientView(second, transportMessage))
    ensures Contains(alert, "already exists")
  {
    var first := controller.CreateTask(request);
    second := controller.CreateTask(request);
    DuplicateIdAlert(request.id.value, transportMessage);
    alert := Client.ErrorMessage(ClientView(second, transportMessage));
  }

  /**
   * Create, read back, edit the title, and delete one task: each step sees
   * the effect of the one before, and the task is gone at the end.
   */
  method Lifecycle(controller: TaskController, request: TaskRequestDTO, newTitle: string)
    returns (created: HttpResponse, read: HttpResponse, updated: HttpResponse, gone: HttpResponse)
    requires controller.taskService.Valid()
    requires request.id.Some? && request.id.value !in controller.taskService.tasks
    modifies controller.taskService
    ensures controller.taskService.Valid()
    ensures created.status == ACCEPTED && created.body.TaskJson? && Mirrors(created.body.task, request)
    ensures read == HttpResponse(OK, TaskJson(created.body.task))
    ensures updated.status == OK && updated.body.TaskJson? && updated.body.task.title == Some(newTitle)
    ensures gone == HttpResponse(NOT_FOUND, ErrorJson(ErrorBody(NotFoundMessage(request.id.value))))
    ensures controller.taskService.tasks == old(controller.taskService.tasks)
  {
    var id := request.id.value;
    created := controller.CreateTask(request);
    read := controller.GetTaskById(id);
    updated := controller.UpdateTask(id, request.(title := Some(newTitle)));
    var deleted := controller.DeleteTask(id);
    gone := controller.GetTaskById(id);
  }
}
