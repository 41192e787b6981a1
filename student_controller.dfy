/**
 * `StudentController`: each endpoint's HTTP status and envelope, decided from
 * the service's answer, the paged-response map and the query defaults.
 */
module StudentController {
  import opened Wrappers
  import opened Strings
  import opened StudentModel
  import opened ApiResponses
  import Svc = StudentServiceImpl
  import Types = StudentTypes

  const OK := 200
  const CREATED := 201
  const NOT_FOUND := 404

  datatype Response<T> = Response(status: int, body: ApiResponse<T>)

  function NotFoundMessage(id: int): string {
    "Student not found with ID: " + IntToString(id)
  }

  /** `GET /api/students`. */
  function GetAllStudents(svc: Svc.StudentService): (r: Response<map<int, StudentDTO>>)
    reads svc
    ensures r.status == OK && r.body.success
    ensures r.body.data == Some(svc.GetAllStudents())
  {
    Response(OK, Success(Some(svc.GetAllStudents()), "Students retrieved successfully"))
  }

  /** `GET /api/students/{id}`: 200 with the record, or 404 naming the id. */
  function GetStudentById(svc: Svc.StudentService, id: int): (r: Response<StudentDTO>)
    reads svc
    ensures r.status == OK <==> Svc.IsLive(svc.rows, id)
    ensures r.status == OK ==>
      r.body == Success(Some(StudentModel.FromEntity(svc.rows[id])), "Student retrieved successfully")
    ensures r.status != OK ==>
      r.status == NOT_FOUND && r.body == Error("Student not found with ID: " + IntToString(id))
  {
    var student := svc.GetStudentById(id);
    if student.Some? then Response(OK, Success(student, "Student retrieved successfully"))
    else Response(NOT_FOUND, Error(NotFoundMessage(id)))
  }

  /**
   * What a client of `GET /api/students/{id}` relies on: the status is 200
   * exactly when the envelope reports success, and the envelope carries a
   * record exactly when it reports success.
   */
  lemma GetStudentByIdEnvelope(svc: Svc.StudentService, id: int)
    ensures var r := GetStudentById(svc, id);
      && (r.status == OK <==> r.body.success)
      && (r.body.success <==> r.body.data.Some?)
      && (!r.body.success ==> r.body.data == None)
  {
  }

  /** `POST /api/students`: 201 with the created record. `@Valid` admits only valid bodies. */
  method CreateStudent(svc: Svc.StudentService, dto: StudentDTO) returns (r: Response<StudentDTO>)
    requires svc.Valid() && DtoValid(dto)
    modifies svc
    ensures svc.Valid()
    ensures r.status == CREATED && r.body.success && r.body.message == "Student created successfully"
    ensures r.body.data.Some? && r.body.data.value == dto.(id := r.body.data.value.id)
    ensures r.body.data.value.id.Some? && svc.GetStudentById(r.body.data.value.id.value) == r.body.data
    ensures svc.rows == old(svc.rows)[r.body.data.value.id.value := ToEntity(r.body.data.value)]
  {
    var created := svc.CreateStudent(dto);
    r := Response(CREATED, Success(Some(created), "Student created successfully"));
  }

  /** `PUT /api/students/{id}`: the service update runs only when the id names a live record. */
  method UpdateStudent(svc: Svc.StudentService, id: int, dto: StudentDTO) returns (r: Response<StudentDTO>)
    requires svc.Valid() && DtoValid(dto)
    modifies svc
    ensures svc.Valid()
    ensures r.status == OK <==> Svc.IsLive(old(svc.rows), id)
    ensures r.status == OK ==>
      && r.body.success && r.body.message == "Student updated successfully"
      && r.body.data.Some? && svc.GetStudentById(id) == r.body.data
      && svc.rows == old(svc.rows)[id := Svc.ApplyUpdate(old(svc.rows)[id], dto)]
    ensures r.status != OK ==>
      r.status == NOT_FOUND && r.body == Error(NotFoundMessage(id)) && svc.rows == old(svc.rows)
  {
    var existing := svc.GetStudentById(id);
    if existing.Some? {
      var updated := svc.UpdateStudent(id, dto);
      r := Response(OK, Success(Some(updated), "Student updated successfully"));
    } else {
      r := Response(NOT_FOUND, Error(NotFoundMessage(id)));
    }
  }

  /** `DELETE /api/students/{id}`: 200 with null data iff the service found the id, else 404. */
  method DeleteStudent(svc: Svc.StudentService, id: int) returns (r: Response<()>)
    requires svc.Valid()
    modifies svc
    ensures svc.Valid()
    ensures r.status == OK <==> id in old(svc.rows)
    ensures r.status == OK ==> r.body == Success(None, "Student deleted successfully")
    ensures r.status != OK ==> r.status == NOT_FOUND && r.body == Error(NotFoundMessage(id))
    ensures svc.rows == Svc.SoftDelete(old(svc.rows), id)
  {
    var deleted := svc.DeleteStudent(id);
    if deleted {
      r := Response(OK, Success(None, "Student deleted successfully"));
    } else {
      r := Response(NOT_FOUND, Error(NotFoundMessage(id)));
    }
  }

  /** `GET /api/students/search`: the term is optional. */
  function SearchStudents(svc: Svc.StudentService, term: Option<string>): (r: Response<map<int, StudentDTO>>)
    reads svc
    ensures r.status == OK && r.body.success
    ensures r.body.data == Some(svc.SearchStudents(term))
    ensures term.None? ==> r.body.data == Some(svc.GetAllStudents())
  {
    Response(OK, Success(Some(svc.SearchStudents(term)), "Search results retrieved successfully"))
  }

  /** `GET /api/students/by-name`. */
  function FindStudentsByName(svc: Svc.StudentService, name: string): (r: Response<map<int, StudentDTO>>)
    reads svc
    ensures r.status == OK && r.body.success
    ensures r.body.data == Some(svc.FindStudentsByName(name))
  {
    Response(OK, Success(Some(svc.FindStudentsByName(name)), "Students retrieved successfully"))
  }

  /** `GET /api/students/by-phone`. */
  function FindStudentsByPhone(svc: Svc.StudentService, phone: string): (r: Response<map<int, StudentDTO>>)
    reads svc
    ensures r.status == OK && r.body.success
    ensures r.body.data == Some(svc.FindStudentsByPhone(phone))
  {
    Response(OK, Success(Some(svc.FindStudentsByPhone(phone)), "Students retrieved successfully"))
  }

  // Paged endpoints

  /** The page metadata that the framework computes; taken here as given values. */
  datatype Page = Page(
    content: seq<StudentDTO>,
    number: int,
    totalElements: int,
    totalPages: int,
    size: int,
    isFirst: bool,
    isLast: bool,
    isEmpty: bool)

  /** A value of the `Map<String, Object>` that `createPageResponse` fills. */
  datatype PageValue = Content(students: seq<StudentDTO>) | Number(n: int) | Flag(b: bool)

  const PAGE_KEYS: set<string> :=
    {"content", "currentPage", "totalItems", "totalPages", "size", "first", "last", "empty"}

  /** `createPageResponse`: eight keys, each copied from the page. */
  function CreatePageResponse(p: Page): (m: map<string, PageValue>)
    ensures m.Keys == PAGE_KEYS
    ensures m["content"] == Content(p.content)
    ensures m["currentPage"] == Number(p.number) && m["totalItems"] == Number(p.totalElements)
    ensures m["totalPages"] == Number(p.totalPages) && m["size"] == Number(p.size)
    ensures m["first"] == Flag(p.isFirst) && m["last"] == Flag(p.isLast) && m["empty"] == Flag(p.isEmpty)
  {
    map[
      "content" := Content(p.content),
      "currentPage" := Number(p.number),
      "totalItems" := Number(p.totalElements),
      "totalPages" := Number(p.totalPages),
      "size" := Number(p.size),
      "first" := Flag(p.isFirst),
      "last" := Flag(p.isLast),
      "empty" := Flag(p.isEmpty)]
  }

  /** How the frontend reads that map as its `PaginatedResponse`; `None` if a key is missing or ill-typed. */
  function ReadPaginatedResponse(m: map<string, PageValue>): Option<Types.PaginatedResponse<StudentDTO>> {
    if PAGE_KEYS <= m.Keys
       && m["content"].Content? && m["currentPage"].Number? && m["totalItems"].Number?
       && m["totalPages"].Number? && m["size"].Number?
       && m["first"].Flag? && m["last"].Flag? && m["empty"].Flag?
    then Some(Types.PaginatedResponse(
      m["content"].students, m["currentPage"].n, m["totalItems"].n, m["totalPages"].n,
      m["size"].n, m["first"].b, m["last"].b, m["empty"].b))
    else None
  }

  /** The frontend recovers every field of the page from the map. */
  lemma PageResponseRoundTrip(p: Page)
    ensures ReadPaginatedResponse(CreatePageResponse(p)) == Some(Types.PaginatedResponse(
      p.content, p.number, p.totalElements, p.totalPages, p.size, p.isFirst, p.isLast, p.isEmpty))
  {
  }

  /** A paged endpoint's response, given the framework's page and the endpoint's message. */
  function PagedResponse(p: Page, message: string): (r: Response<map<string, PageValue>>)
    ensures r.status == OK && r.body.success && r.body.message == message
    ensures r.body.data == Some(CreatePageResponse(p))
  {
    Response(OK, Success(Some(CreatePageResponse(p)), message))
  }

  /** Query parameters as received; absent ones are `None`. */
  datatype PageQuery = PageQuery(page: Option<int>, size: Option<int>, sort: Option<string>, direction: Option<string>)

  /** The values the handler works with once `@RequestParam` defaults are applied. */
  datatype Paging = Paging(page: int, size: int, sort: string, direction: string)

  function WithDefaults(q: PageQuery): (r: Paging)
    ensures q.page.None? ==> r.page == 0
    ensures q.size.None? ==> r.size == 10
    ensures q.sort.None? ==> r.sort == "id"
    ensures q.direction.None? ==> r.direction == "ASC"
    ensures q.page.Some? ==> r.page == q.page.value
    ensures q.size.Some? ==> r.size == q.size.value
    ensures q.sort.Some? ==> r.sort == q.sort.value
    ensures q.direction.Some? ==> r.direction == q.direction.value
  {
    Paging(
      if q.page.Some? then q.page.value else 0,
      if q.size.Some? then q.size.value else 10,
      if q.sort.Some? then q.sort.value else "id",
      if q.direction.Some? then q.direction.value else "ASC")
  }

  /** A request with no paging parameters asks for the first ten rows by ascending id. */
  lemma DefaultPaging()
    ensures WithDefaults(PageQuery(None, None, None, None)) == Paging(0, 10, "id", "ASC")
  {
  }
}
