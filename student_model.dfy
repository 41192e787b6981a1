/**
 * The persisted `Student` entity, the `StudentDTO` exchanged with clients, the
 * mapping between the two, and the DTO's Bean-Validation constraints.
 */
module StudentModel {
  import opened Wrappers
  import opened Strings

  /**
   * A row of the `students` table. Every Java reference field may be `null`
   * (`None`). The two timestamps are kept abstract as integers.
   */
  datatype Student = Student(
    id: Option<int>,
    userId: Option<int>,
    name: Option<string>,
    gender: Option<string>,
    phone: Option<string>,
    age: Option<int>,
    nativePlace: Option<string>,
    major: Option<string>,
    email: Option<string>,
    tag: Option<string>,
    remark: Option<string>,
    createTime: Option<int>,
    modifyTime: Option<int>,
    isDelete: int,
    creator: Option<int>)

  /** The transfer object: the entity without its deletion flag and timestamps. */
  datatype StudentDTO = StudentDTO(
    id: Option<int>,
    userId: Option<int>,
    name: Option<string>,
    gender: Option<string>,
    phone: Option<string>,
    age: Option<int>,
    nativePlace: Option<string>,
    major: Option<string>,
    email: Option<string>,
    tag: Option<string>,
    remark: Option<string>,
    creator: Option<int>)

  /** Flag value of a live record (`isDelete = 0`) and of a soft-deleted one. */
  const LIVE := 0
  const DELETED := 1

  /** `StudentDTO.fromEntity`: copies the twelve shared fields. */
  function FromEntity(e: Student): (d: StudentDTO)
    ensures ToEntity(d) == e.(createTime := None, modifyTime := None, isDelete := LIVE)
  {
    StudentDTO(e.id, e.userId, e.name, e.gender, e.phone, e.age, e.nativePlace,
               e.major, e.email, e.tag, e.remark, e.creator)
  }

  /** `StudentDTO.toEntity`: a fresh entity, live, with no timestamps yet. */
  function ToEntity(d: StudentDTO): (e: Student)
    ensures e.isDelete == LIVE
    ensures e.createTime == None && e.modifyTime == None
  {
    Student(d.id, d.userId, d.name, d.gender, d.phone, d.age, d.nativePlace,
            d.major, d.email, d.tag, d.remark, None, None, LIVE, d.creator)
  }

  /** Converting a DTO to an entity and back loses nothing. */
  lemma DtoRoundTrip(d: StudentDTO)
    ensures FromEntity(ToEntity(d)) == d
  {
  }

  /** `fromEntity` does not look at the deletion flag or the timestamps. */
  lemma FromEntityIgnoresBookkeeping(e: Student, flag: int, created: Option<int>, modified: Option<int>)
    ensures FromEntity(e.(isDelete := flag, createTime := created, modifyTime := modified)) == FromEntity(e)
  {
  }

  // Bean-Validation constraints of StudentDTO. `null` satisfies `@Size` and
  // `@Pattern`; it fails `@NotBlank`.

  predicate SizeAtMost(s: Option<string>, max: nat) {
    s.None? || |s.value| <= max
  }

  /** `@NotBlank @Size(max = 64)` on `name`. */
  predicate NameValid(name: Option<string>) {
    name.Some? && !IsBlank(name.value) && |name.value| <= 64
  }

  /** `@Pattern("^[0-9]*$") @Size(max = 16)` on `phone`. */
  predicate PhoneValid(phone: Option<string>) {
    phone.None? || (AllDigits(phone.value) && |phone.value| <= 16)
  }

  /** All constraints that `@Valid` enforces on a request body (the `@Email` shape aside). */
  predicate DtoValid(d: StudentDTO) {
    && NameValid(d.name)
    && SizeAtMost(d.gender, 8)
    && PhoneValid(d.phone)
    && SizeAtMost(d.nativePlace, 64)
    && SizeAtMost(d.major, 128)
    && SizeAtMost(d.email, 32)
    && SizeAtMost(d.tag, 512)
    && SizeAtMost(d.remark, 512)
  }

  /** `@NotBlank` rejects a name made only of characters `trim()` removes. */
  lemma NameValidIff(name: Option<string>)
    ensures NameValid(name) <==>
      name.Some? && |name.value| <= 64 && exists i | 0 <= i < |name.value| :: !IsTrimmable(name.value[i])
  {
    if name.Some? {
      BlankIffAllTrimmable(name.value);
    }
  }

  /** `age` carries no server-side constraint: any age, or none, passes. */
  lemma AgeUnconstrained(d: StudentDTO, age: Option<int>)
    ensures DtoValid(d.(age := age)) == DtoValid(d)
  {
  }
}
