# Task manager: service, error mapping and error display, in Dafny

This project models the core of a small task-tracking application. The
backend is a Spring service that stores tasks under ids chosen by the
client. Its REST controller serves `/api/tasks`. A global exception handler
turns the service's exceptions into HTTP statuses. The Angular frontend has
an HTTP interceptor that turns a failed request into the text shown to the
user.

What is modelled:

- **Task store** (`Service`). `TaskService` is a class whose field
  `tasks: map<Long, Task>` stands for the repository's table. Create,
  update and delete are methods that change the map. Lookup and the
  entity/DTO copies are functions. `Valid()` says that every stored entity
  carries the id it is stored under.
- **Exception handler** (`ExceptionHandling`). An `IllegalArgumentException`
  becomes 400. Any other runtime exception is classified by its lower-cased
  message: "not found" gives 404, then "already exists" gives 409, and
  anything else gives 500. The body is always `{"message": <original message>}`.
- **Service messages against the handler** (`Classification`). "Task not
  found with id: <id>" is a 404 and "A task already exists with this ID:
  <id>" is a 409, for every id.
- **Controller** (`Controller`). The list parameters' defaults, sort
  parsing, and the filter passed through. The status of each endpoint.
  What an exception becomes on the wire.
- **Interceptor** (`HttpErrorInterceptor`). The status and body of a failed
  request decide the user text, and the interceptor re-throws an error that
  carries that text.
- **End to end** (`EndToEnd`). A duplicate create ends in an alert that
  contains "already exists". A full create, read, edit and delete cycle
  behaves as the client expects.

Java's nullable fields are `Option`s: a task's id, title, description and
due date. `completed` is a primitive `boolean`. Ids are `Long`, a subset
of `int` in the 64-bit range; they are only compared and printed. The due
date is an opaque value. The Java and JavaScript string operations the code
relies on are in `JavaStrings`: `contains`, `toLowerCase`,
`equalsIgnoreCase`, and the decimal text of a number.

The model follows the code where it differs from what a REST client might
expect:

- Create answers 202, not 200 or 201.
- Nothing checks the title or the due date.
- An update whose body id differs from the path id is rejected with 400.
- Delete answers 204 even when the id is absent.
- A `sort` array with fewer than two elements is not a precondition here.
  It makes `sort[1]` throw `ArrayIndexOutOfBoundsException`, modelled as
  the runtime exception "Index 1 out of bounds for length <n>".
- Page and size are not checked by this code.

## Model

| member | source | states |
|---|---|---|
| `Service.TaskService.GetTaskById` | TaskManagerApp/backend/src/main/java/com/taskmanager/service/TaskService.java:48-52 | succeeds exactly when the id is stored, returning that task with its id; otherwise fails with RuntimeException "Task not found with id: <id>" |
| `Service.TaskService.CreateTask` | TaskManagerApp/backend/src/main/java/com/taskmanager/service/TaskService.java:62-73 | null id: IllegalArgumentException "Task ID is mandatory." and store unchanged; taken id: RuntimeException "A task already exists with this ID: <id>" and store unchanged; otherwise exactly one entry is added under the request id, the response mirrors the request's five fields, and a later get returns that same response |
| `Service.TaskService.UpdateTask` | TaskManagerApp/backend/src/main/java/com/taskmanager/service/TaskService.java:84-100 | a non-null body id that differs from the path id: IllegalArgumentException and store unchanged; an absent path id: not-found and store unchanged; otherwise only that entry changes, keeping the path id and taking title, description (null included), completed and due date from the request |
| `Service.TaskService.DeleteTask` | TaskManagerApp/backend/src/main/java/com/taskmanager/service/TaskService.java:107-110 | the store loses the entry for the id and nothing else, and a later get fails with the not-found message |
| `Service.GetAllTasks` | TaskManagerApp/backend/src/main/java/com/taskmanager/service/TaskService.java:31-39 | queries findByCompleted exactly when a filter is given, passes the pageable through, and ranges over exactly the tasks whose completed flag equals the filter (all tasks without one) |
| `Service.ConvertToEntity` | TaskManagerApp/backend/src/main/java/com/taskmanager/service/TaskService.java:122-130 | the new entity holds exactly the request's five fields, id included |
| `Service.ConvertToResponseDTO` | TaskManagerApp/backend/src/main/java/com/taskmanager/service/TaskService.java:112-120 | the response shows exactly the entity's five fields, id included |
| `Service.ConvertRoundTrip` | TaskManagerApp/backend/src/main/java/com/taskmanager/service/TaskService.java:112-130 | copying a request into an entity and the entity into a response keeps all five fields |
| `Service.NotFoundMessage` | TaskManagerApp/backend/src/main/java/com/taskmanager/service/TaskService.java:51 | the not-found text opens with "Task not found with id: " and the rest parses back to the id |
| `Service.AlreadyExistsMessage` | TaskManagerApp/backend/src/main/java/com/taskmanager/service/TaskService.java:68 | the duplicate-id text opens with "A task already exists with this ID: " and the rest parses back to the id |
| `Service.MessagesNameTheId` | TaskManagerApp/backend/src/main/java/com/taskmanager/service/TaskService.java:51 | two not-found (or two duplicate-id) messages are equal exactly when their ids are |
| `ExceptionHandling.ErrorBody` | TaskManagerApp/backend/src/main/java/com/taskmanager/exception/GlobalExceptionHandler.java:40-41 | the error body has the single key "message", holding the exception's message |
| `ExceptionHandling.HandleIllegalArgument` | TaskManagerApp/backend/src/main/java/com/taskmanager/exception/GlobalExceptionHandler.java:24-29 | status 400 with the message body |
| `ExceptionHandling.HandleRuntime` | TaskManagerApp/backend/src/main/java/com/taskmanager/exception/GlobalExceptionHandler.java:38-51 | body holds the original message; status is 404, 409 or 500; 404 exactly when the lower-cased message contains "not found"; 409 exactly when it contains "already exists" and not "not found" |
| `ExceptionHandling.HandleException` | TaskManagerApp/backend/src/main/java/com/taskmanager/exception/GlobalExceptionHandler.java:24-51 | an IllegalArgumentException always gets 400, any other runtime exception goes through the message classification; the body always carries the message |
| `ExceptionHandling.StatusIgnoresCase` | TaskManagerApp/backend/src/main/java/com/taskmanager/exception/GlobalExceptionHandler.java:43 | the status depends only on the lower-cased message |
| `ExceptionHandling.NotFoundInAnyCase` | TaskManagerApp/backend/src/main/java/com/taskmanager/exception/GlobalExceptionHandler.java:43-46 | a message containing "not found" written in any case gets 404 |
| `ExceptionHandling.AlreadyExistsInAnyCase` | TaskManagerApp/backend/src/main/java/com/taskmanager/exception/GlobalExceptionHandler.java:47-49 | a message containing "already exists" in any case, and not "not found", gets 409 |
| `ExceptionHandling.NotFoundTakesPrecedence` | TaskManagerApp/backend/src/main/java/com/taskmanager/exception/GlobalExceptionHandler.java:44-49 | a message holding both phrases gets 404 |
| `Classification.NotFoundMessageMatches` | TaskManagerApp/backend/src/main/java/com/taskmanager/service/TaskService.java:49-51 | the lower-cased not-found message contains "not found" |
| `Classification.AlreadyExistsMessageMatches` | TaskManagerApp/backend/src/main/java/com/taskmanager/service/TaskService.java:67-69 | the lower-cased duplicate-id message contains "already exists" |
| `Classification.AlreadyExistsMessageAvoidsNotFound` | TaskManagerApp/backend/src/main/java/com/taskmanager/service/TaskService.java:68 | the lower-cased duplicate-id message never contains "not found", whatever the id |
| `Classification.NotFoundMessageIs404` | TaskManagerApp/backend/src/main/java/com/taskmanager/service/TaskService.java:49-51 | the not-found exception of every id becomes 404 with its message as body |
| `Classification.AlreadyExistsMessageIs409` | TaskManagerApp/backend/src/main/java/com/taskmanager/service/TaskService.java:67-69 | the duplicate-id exception of every id becomes 409 with its message as body |
| `Classification.ArgumentErrorsAre400` | TaskManagerApp/backend/src/main/java/com/taskmanager/service/TaskService.java:64-87 | "Task ID is mandatory." and the id-mismatch message become 400 with their text as body |
| `Controller.Respond` | TaskManagerApp/backend/src/main/java/com/taskmanager/controller/TaskController.java:69-73 | a result becomes the endpoint's success status with the task, and an exception becomes the handler's status with the message body |
| `Controller.IndexOutOfBoundsMessage` | TaskManagerApp/backend/src/main/java/com/taskmanager/controller/TaskController.java:43 | the message of `sort[1]` on a short array opens with "Index " and ends with the array's length, which parses back |
| `Controller.TaskController.GetAllTasks` | TaskManagerApp/backend/src/main/java/com/taskmanager/controller/TaskController.java:36-47 | fails with the index-out-of-bounds exception exactly when sort has fewer than two elements; otherwise page and size default to 0 and 10, the property is sort[0], the direction is ASC exactly when sort[1] equals "asc" ignoring case, and the completed filter reaches the service unchanged |
| `Controller.GetAllTasksDefaults` | TaskManagerApp/backend/src/main/java/com/taskmanager/controller/TaskController.java:39-41 | with no parameters the repository is asked for findAll on page 0, size 10, by id descending |
| `Controller.SortDirection` | TaskManagerApp/backend/src/main/java/com/taskmanager/controller/TaskController.java:43-44 | the direction is ASC exactly for the eight spellings of "asc"; "desc" and any other text give DESC; the field is passed on as given |
| `Controller.TaskController.GetTaskById` | TaskManagerApp/backend/src/main/java/com/taskmanager/controller/TaskController.java:56-59 | 200 with the stored task exactly when the path id is stored; otherwise 404 with the not-found message; nothing changes |
| `Controller.TaskController.CreateTask` | TaskManagerApp/backend/src/main/java/com/taskmanager/controller/TaskController.java:69-73 | 202 with a task mirroring the request and the entry added; 400 "Task ID is mandatory." or 409 with the duplicate-id message, store unchanged |
| `Controller.TaskController.UpdateTask` | TaskManagerApp/backend/src/main/java/com/taskmanager/controller/TaskController.java:83-86 | the path id reaches the service unchanged: 200 with the updated task under that id; 400 on an id mismatch; 404 on an absent id, store unchanged on both |
| `Controller.TaskController.DeleteTask` | TaskManagerApp/backend/src/main/java/com/taskmanager/controller/TaskController.java:93-97 | always 204 with no body; the entry for the path id is removed |
| `HttpErrorInterceptor.Truthy` | TaskManagerApp/frontend/src/app/interceptors/http-error.interceptor.ts:16 | a string-or-undefined is falsy exactly when it is undefined or empty |
| `HttpErrorInterceptor.OrElse` | TaskManagerApp/frontend/src/app/interceptors/http-error.interceptor.ts:16 | JavaScript `m \|\| fallback`: the message when present and non-empty, else the fallback |
| `HttpErrorInterceptor.ErrorMessage` | TaskManagerApp/frontend/src/app/interceptors/http-error.interceptor.ts:7-35 | a client-side ErrorEvent gives "Error: " + its message; 401, 403 and 404 give their fixed texts; any other status gives a truthy server message, or else the 400/409/500 fallback, or "Error Code: <status>\nMessage: <message>" |
| `HttpErrorInterceptor.DefaultText` | TaskManagerApp/frontend/src/app/interceptors/http-error.interceptor.ts:34 | the default text opens with "Error Code: " and the status, which parses back, and ends with the transport's message |
| `HttpErrorInterceptor.Intercept` | TaskManagerApp/frontend/src/app/interceptors/http-error.interceptor.ts:5-43 | successful values pass through unchanged, and every failure is re-thrown as an Error whose message is the chosen text |
| `HttpErrorInterceptor.FixedTextIgnoresServer` | TaskManagerApp/frontend/src/app/interceptors/http-error.interceptor.ts:18-26 | for 401, 403 and 404 the server's message makes no difference |
| `HttpErrorInterceptor.UnknownOnlyFromServer` | TaskManagerApp/frontend/src/app/interceptors/http-error.interceptor.ts:7-35 | "An unknown error occurred!" is the result only when the server sent that very message: every branch assigns its own text |
| `HttpErrorInterceptor.ConflictKeepsServerWords` | TaskManagerApp/frontend/src/app/interceptors/http-error.interceptor.ts:27-28 | a 409 whose server message contains a phrase shows that message, hence the phrase |
| `EndToEnd.ClientView` | TaskManagerApp/frontend/src/app/interceptors/http-error.interceptor.ts:28 | the browser sees the server's status and reads the body's "message" property when it has one |
| `EndToEnd.AlreadyExistsMessageSaysSo` | TaskManagerApp/backend/src/test/java/com/taskmanager/service/TaskServiceTest.java:64-74 | the duplicate-id message contains "already exists with this ID", and so "already exists", letter for letter |
| `EndToEnd.DuplicateIdAlert` | TaskManagerApp/frontend/e2e/task-flow.spec.ts:42-55 | the 409 sent for a duplicate create is shown with the server's text, which contains "already exists" |
| `EndToEnd.MissingTaskAlert` | TaskManagerApp/frontend/src/app/interceptors/http-error.interceptor.ts:24-25 | a 404 from a missing task is shown as "Resource not found." |
| `EndToEnd.MissingIdAlert` | TaskManagerApp/frontend/src/app/interceptors/http-error.interceptor.ts:15-16 | a 400 from a create without an id is shown as "Task ID is mandatory." |
| `EndToEnd.SubmitTwice` | TaskManagerApp/frontend/e2e/task-flow.spec.ts:42-55 | submitting the same id twice ends in a 409 whose alert contains "already exists", whether or not the first create succeeded |
| `EndToEnd.Lifecycle` | TaskManagerApp/frontend/e2e/task-flow.spec.ts:7-40 | create answers 202 with the request's fields; a get returns that task; an update changes the title; after delete a get answers 404; the store ends as it began |
| `JavaStrings.ToLowerCase` | TaskManagerApp/backend/src/main/java/com/taskmanager/exception/GlobalExceptionHandler.java:43 | the lower-cased text has the same length and lower-cases each character |
| `JavaStrings.Contains` | TaskManagerApp/backend/src/main/java/com/taskmanager/exception/GlobalExceptionHandler.java:44 | the empty needle is in every string, and a needle longer than the text is in none |
| `JavaStrings.OccursImpliesContains` | TaskManagerApp/backend/src/main/java/com/taskmanager/exception/GlobalExceptionHandler.java:44 | every occurrence of the needle is found by contains |
| `JavaStrings.ContainsImpliesOccurs` | TaskManagerApp/backend/src/main/java/com/taskmanager/exception/GlobalExceptionHandler.java:44 | contains succeeds only on an actual occurrence |
| `JavaStrings.ContainsLower` | TaskManagerApp/backend/src/main/java/com/taskmanager/exception/GlobalExceptionHandler.java:43-44 | an occurrence survives lower-casing of text and needle |
| `JavaStrings.MissingCharExcludes` | TaskManagerApp/backend/src/main/java/com/taskmanager/exception/GlobalExceptionHandler.java:44 | a needle holding a character the text lacks is never contained |
| `JavaStrings.EqualsIgnoreCase` | TaskManagerApp/backend/src/main/java/com/taskmanager/controller/TaskController.java:43 | equal strings match, and matching strings have the same length |
| `JavaStrings.EqualsIgnoreCaseAsc` | TaskManagerApp/backend/src/main/java/com/taskmanager/controller/TaskController.java:43 | equalsIgnoreCase(s, "asc") holds exactly for the eight spellings of "asc" |
| `JavaStrings.IntToString` | TaskManagerApp/backend/src/main/java/com/taskmanager/service/TaskService.java:51 | the decimal text of an id is non-empty, made of digits and a sign, and starts with '-' exactly for a negative id |
| `JavaStrings.IntToStringRoundTrip` | TaskManagerApp/backend/src/main/java/com/taskmanager/service/TaskService.java:51 | the decimal text of an id in a message parses back to that id |

## Left out

- Paging, sorting and filtering themselves are done by the repository's `findAll(Pageable)` and `findByCompleted`, whose code is not part of this model. `Service.GetAllTasks` records which call is made and what it selects; page slicing, ordering and totals are not modelled.
- Mapping the page content through `convertToResponseDTO` (TaskService.java line 38) is not modelled apart from the single-task conversion.
- `PageRequest.of` rejects a negative page or a size below one, and `Sort.by` rejects an empty property. Both checks are inside Spring and are not modelled. Neither is Spring's splitting of "id,desc" into a two-element `String[]`, which the model takes as already done.
- Controller.TaskController.GetAllTasks: the response for a `sort` with fewer than two elements is not proved to be 500. The model stops at the exception it throws.
- JavaStrings.ToLowerCase: only ASCII letters are folded. Java's `toLowerCase` uses Unicode and the default locale. The two phrases matched, "not found" and "already exists", are plain ASCII.
- JavaStrings.EqualsIgnoreCase: only ASCII letters are folded. Java's `equalsIgnoreCase` also matches some non-ASCII characters, such as U+017F (long s) with "s".
- JavaStrings.EqualsIgnoreCaseAsc: "exactly the eight spellings of asc" holds only for ASCII text. Java also accepts "aſc" and its case variants.
- Controller.SortDirection: with the same ASCII folding, "aſc" sorts descending here but ascending in Java.
- Exceptions with a null message are not modelled. `handleRuntime` would throw on `toLowerCase` for them; the service never throws one.
- `@Transactional` atomicity and the JPA persistence context are not modelled. Each method's effect on the map is a single step. The in-place field updates of `updateTask` replace the map entry, so entity aliasing is not captured.
- Service.TaskService.DeleteTask: deleting an absent id is a no-op, as Spring Data 3's `deleteById` does. Older repository versions throw instead; that case is not modelled.
- Path ids and page parameters outside Java's `long` and `int` ranges are rejected by Spring's conversion before the controller runs. The model's `Long` and `Int` types exclude them.
- Interceptor side effects are not modelled: `console.error`, `alert` and the RxJS pipe machinery. A server `message` that is not a string is treated as absent.
- The Angular components, routing, confirm dialogs, date formatting and `task.service.ts` (HTTP transport) are not part of this model.
