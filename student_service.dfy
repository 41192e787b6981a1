/**
 * `StudentServiceImpl` over its repository: a table of student rows that is
 * only ever soft-deleted. Reads and searches return the live rows, mapped to
 * DTOs and keyed by id.
 */
module StudentServiceImpl {
  import opened Wrappers
  import opened Strings
  import opened StudentModel
  import Repo = StudentRepository

  /** The DTO view of a selection of rows. */
  function ToDtos(t: map<int, Student>): (r: map<int, StudentDTO>)
    ensures r.Keys == t.Keys
    ensures forall id | id in r :: r[id] == FromEntity(t[id])
  {
    map id | id in t :: FromEntity(t[id])
  }

  predicate IsLive(t: map<int, Student>, id: int) {
    id in t && t[id].isDelete == LIVE
  }

  /** The nine fields `updateStudent` copies from the request onto the stored row. */
  function ApplyUpdate(e: Student, d: StudentDTO): (u: Student)
    ensures FromEntity(u) == d.(id := e.id, userId := e.userId, creator := e.creator)
    ensures u.isDelete == e.isDelete
    ensures u.createTime == e.createTime && u.modifyTime == e.modifyTime
  {
    e.(name := d.name, gender := d.gender, phone := d.phone, age := d.age,
       nativePlace := d.nativePlace, major := d.major, email := d.email,
       tag := d.tag, remark := d.remark)
  }

  /** The table after `deleteStudent(id)`: the row stays, flagged deleted. */
  function SoftDelete(t: map<int, Student>, id: int): (r: map<int, Student>)
    ensures r.Keys == t.Keys
    ensures !IsLive(r, id)
    ensures forall k | k in t && k != id :: r[k] == t[k]
  {
    if id in t then t[id := t[id].(isDelete := DELETED)] else t
  }

  /** Deleting twice is deleting once. */
  lemma SoftDeleteIdempotent(t: map<int, Student>, id: int)
    ensures SoftDelete(SoftDelete(t, id), id) == SoftDelete(t, id)
  {
  }

  /** A soft delete hides exactly the target row from every live view. */
  lemma SoftDeleteHidesOnlyTarget(t: map<int, Student>, id: int, k: int)
    ensures IsLive(SoftDelete(t, id), k) <==> IsLive(t, k) && k != id
  {
  }

  class StudentService {
    /** The rows of the `students` table, by id. */
    var rows: map<int, Student>
    /** The next value of the table's identity column. */
    var nextId: int

    ghost predicate Valid()
      reads this
    {
      1 <= nextId && forall id | id in rows :: 1 <= id < nextId && rows[id].id == Some(id)
    }

    constructor ()
      ensures Valid() && rows == map[]
    {
      rows := map[];
      nextId := 1;
    }

    /**
     * `repository.save`. An entity whose id names a stored row overwrites that
     * row; any other entity is inserted under a fresh id.
     */
    method Save(e: Student) returns (saved: Student)
      requires Valid()
      modifies this
      ensures Valid()
      ensures e.id.Some? && e.id.value in old(rows) ==>
        saved == e && rows == old(rows)[e.id.value := e] && nextId == old(nextId)
      ensures !(e.id.Some? && e.id.value in old(rows)) ==>
        && saved == e.(id := Some(old(nextId)))
        && old(nextId) !in old(rows)
        && rows == old(rows)[old(nextId) := saved]
    {
      if e.id.Some? && e.id.value in rows {
        saved := e;
        rows := rows[e.id.value := e];
      } else {
        saved := e.(id := Some(nextId));
        rows := rows[nextId := saved];
        nextId := nextId + 1;
      }
    }

    /** `getAllStudents()`: precisely the live rows. */
    function GetAllStudents(): (r: map<int, StudentDTO>)
      reads this
      ensures forall id | IsLive(rows, id) :: id in r
      ensures forall id | id in r :: IsLive(rows, id) && r[id] == FromEntity(rows[id])
    {
      ToDtos(Repo.FindByIsDelete(rows, LIVE))
    }

    /** `getStudentById(id)`: empty for a missing id and for a soft-deleted row. */
    function GetStudentById(id: int): (r: Option<StudentDTO>)
      reads this
      ensures r.Some? <==> IsLive(rows, id)
      ensures r.Some? ==> r.value == FromEntity(rows[id])
    {
      if id in rows && rows[id].isDelete == LIVE then Some(FromEntity(rows[id])) else None
    }

    /** `createStudent(dto)`: stores the DTO as a live row; reading it back gives the same fields. */
    method CreateStudent(dto: StudentDTO) returns (created: StudentDTO)
      requires Valid()
      modifies this
      ensures Valid()
      ensures created.id.Some? && created == dto.(id := created.id)
      ensures GetStudentById(created.id.value) == Some(created)
      ensures rows == old(rows)[created.id.value := ToEntity(created)]
      ensures dto.id.Some? && dto.id.value in old(rows) ==> created.id == dto.id
      ensures !(dto.id.Some? && dto.id.value in old(rows)) ==>
        created.id == Some(old(nextId)) && old(nextId) !in old(rows)
    {
      var student := ToEntity(dto);
      student := student.(isDelete := LIVE);
      var saved := Save(student);
      created := FromEntity(saved);
      assert ToEntity(created) == saved;
    }

    /**
     * `updateStudent(id, dto)`: on a live row, overwrites the nine editable
     * fields and keeps id, userId, creator and the flag; otherwise changes
     * nothing and hands the request back.
     */
    method UpdateStudent(id: int, dto: StudentDTO) returns (r: StudentDTO)
      requires Valid()
      modifies this
      ensures Valid() && nextId == old(nextId)
      ensures IsLive(old(rows), id) ==>
        && rows == old(rows)[id := ApplyUpdate(old(rows)[id], dto)]
        && r == dto.(id := Some(id), userId := old(rows)[id].userId, creator := old(rows)[id].creator)
        && GetStudentById(id) == Some(r)
      ensures !IsLive(old(rows), id) ==> rows == old(rows) && r == dto
    {
      if id in rows && rows[id].isDelete == LIVE {
        var student := rows[id];
        student := ApplyUpdate(student, dto);
        var updated := Save(student);
        r := FromEntity(updated);
      } else {
        r := dto;
      }
    }

    /**
     * `deleteStudent(id)`: true iff a row with that id exists, deleted or
     * not; the row is kept and flagged. Deleting a deleted row changes nothing.
     */
    method DeleteStudent(id: int) returns (deleted: bool)
      requires Valid()
      modifies this
      ensures Valid() && nextId == old(nextId)
      ensures deleted == (id in old(rows))
      ensures rows == SoftDelete(old(rows), id)
      ensures id in old(rows) && old(rows)[id].isDelete == DELETED ==> rows == old(rows)
      ensures GetStudentById(id) == None
      ensures GetAllStudents() == old(GetAllStudents()) - {id}
    {
      if id in rows {
        var student := rows[id];
        student := student.(isDelete := DELETED);
        var _ := Save(student);
        deleted := true;
      } else {
        deleted := false;
      }
    }

    /** `searchStudents(term)`: a null or blank term lists everything live. */
    function SearchStudents(term: Option<string>): (r: map<int, StudentDTO>)
      reads this
      ensures term.None? || IsBlank(term.value) ==> r == GetAllStudents()
      ensures term.Some? && !IsBlank(term.value) ==>
        forall id :: id in r <==> id in rows && Repo.SearchMatches(rows[id], term.value, LIVE)
      ensures forall id | id in r :: IsLive(rows, id) && r[id] == FromEntity(rows[id])
    {
      if term.None? || IsBlank(term.value) then GetAllStudents()
      else ToDtos(Repo.SearchStudents(rows, term.value, LIVE))
    }

    /** `findStudentsByName(name)`: live rows whose name contains the argument. */
    function FindStudentsByName(name: string): (r: map<int, StudentDTO>)
      reads this
      ensures forall id | IsLive(rows, id) && rows[id].name.Some? && Contains(rows[id].name.value, name) :: id in r
      ensures forall id | id in r ::
        IsLive(rows, id) && rows[id].name.Some? && Contains(rows[id].name.value, name) && r[id] == FromEntity(rows[id])
    {
      ToDtos(Repo.FindByNameContainingAndIsDelete(rows, name, LIVE))
    }

    /** `findStudentsByPhone(phone)`: live rows whose phone contains the argument. */
    function FindStudentsByPhone(phone: string): (r: map<int, StudentDTO>)
      reads this
      ensures forall id | IsLive(rows, id) && rows[id].phone.Some? && Contains(rows[id].phone.value, phone) :: id in r
      ensures forall id | id in r ::
        IsLive(rows, id) && rows[id].phone.Some? && Contains(rows[id].phone.value, phone) && r[id] == FromEntity(rows[id])
    {
      ToDtos(Repo.FindByPhoneContainingAndIsDelete(rows, phone, LIVE))
    }
  }

  /** A soft-deleted row shows up in no read and no search. */
  lemma DeletedRowsInvisible(svc: StudentService, id: int, term: Option<string>, text: string)
    requires id in svc.rows && svc.rows[id].isDelete != LIVE
    ensures svc.GetStudentById(id) == None
    ensures id !in svc.GetAllStudents()
    ensures id !in svc.SearchStudents(term)
    ensures id !in svc.FindStudentsByName(text) && id !in svc.FindStudentsByPhone(text)
  {
  }
}
