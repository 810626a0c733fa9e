/**
 * The task record as the backend stores it (entity) and exchanges it
 * (request and response DTOs), the exceptions the service throws, and the
 * paging request the controller builds.
 */
module Model {
  import opened Wrappers

  const LONG_MIN: int := -0x8000_0000_0000_0000
  const LONG_MAX: int := 0x7FFF_FFFF_FFFF_FFFF
  const INT_MIN: int := -0x8000_0000
  const INT_MAX: int := 0x7FFF_FFFF

  /** `java.lang.Long`: task ids are only compared and printed, never computed with. */
  type Long = x: int | LONG_MIN <= x <= LONG_MAX

  /** Java `int`, the type of the page and size parameters. */
  type Int = x: int | INT_MIN <= x <= INT_MAX

  /** `java.time.LocalDateTime`, kept opaque: it is only stored, copied and compared. */
  datatype LocalDateTime = LocalDateTime(iso: string)

  /**
   * The persisted entity. Every reference field may be null in Java; the
   * primitive `completed` may not.
   */
  datatype Task = Task(
    id: Option<Long>,
    title: Option<string>,
    description: Option<string>,
    completed: bool,
    dueDate: Option<LocalDateTime>)

  /** Body of a create or update request; `id` is null when the client leaves it out. */
  datatype TaskRequestDTO = TaskRequestDTO(
    id: Option<Long>,
    title: Option<string>,
    description: Option<string>,
    completed: bool,
    dueDate: Option<LocalDateTime>)

  /** What the API returns for a task. */
  datatype TaskResponseDTO = TaskResponseDTO(
    id: Option<Long>,
    title: Option<string>,
    description: Option<string>,
    completed: bool,
    dueDate: Option<LocalDateTime>)

  /** A response carries exactly the five fields of a request. */
  predicate Mirrors(response: TaskResponseDTO, request: TaskRequestDTO) {
    && response.id == request.id
    && response.title == request.title
    && response.description == request.description
    && response.completed == request.completed
    && response.dueDate == request.dueDate
  }

  /** An entity holds exactly the five fields of the request it was built from. */
  predicate Holds(task: Task, request: TaskRequestDTO) {
    && task.id == request.id
    && task.title == request.title
    && task.description == request.description
    && task.completed == request.completed
    && task.dueDate == request.dueDate
  }

  /** A response shows exactly the five fields of the entity it was read from. */
  predicate Shows(response: TaskResponseDTO, task: Task) {
    && response.id == task.id
    && response.title == task.title
    && response.description == task.description
    && response.completed == task.completed
    && response.dueDate == task.dueDate
  }

  /**
   * The exceptions that leave the backend. `IllegalArgumentException` is a
   * subclass of `RuntimeException` in Java; `RuntimeException` here stands for
   * every other runtime exception (a plain one, or an array index out of bounds).
   */
  datatype Exception =
    | IllegalArgumentException(message: string)
    | RuntimeException(message: string)

  /** Spring Data's `Sort.Direction`. */
  datatype Direction = ASC | DESC

  /** Spring Data's `PageRequest.of(page, size, Sort.by(direction, property))`. */
  datatype Pageable = PageRequest(page: Int, size: Int, direction: Direction, property: string)
}
