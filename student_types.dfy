/** The frontend's record shapes and the major lookup (frontend/src/types/student.ts). */
module StudentTypes {
  import opened Wrappers

  /** The client's view of a student: every field but `name` may be undefined. */
  datatype Student = Student(
    id: Option<int>,
    userId: Option<int>,
    name: string,
    gender: Option<string>,
    phone: Option<string>,
    age: Option<int>,
    nativePlace: Option<string>,
    major: Option<string>,
    email: Option<string>,
    tag: Option<string>,
    remark: Option<string>,
    creator: Option<int>)

  datatype MajorOption = MajorOption(value: string, labelText: string)

  const MAJOR_OPTIONS: seq<MajorOption> := [
    MajorOption("1", "计算机"),
    MajorOption("2", "土木工程"),
    MajorOption("3", "理学院"),
    MajorOption("4", "工商管理"),
    MajorOption("5", "电子信息"),
    MajorOption("6", "自动化")
  ]

  datatype Direction = ASC | DESC

  /** Query parameters of a paged request. */
  datatype PageParams = PageParams(page: int, size: int, sort: string, direction: Direction)

  /** The payload of a paged response. */
  datatype PaginatedResponse<T> = PaginatedResponse(
    content: seq<T>,
    currentPage: int,
    totalItems: int,
    totalPages: int,
    size: int,
    first: bool,
    last: bool,
    empty: bool)

  /** `Array.prototype.find`: the first option whose value is `v`. */
  function FindOption(options: seq<MajorOption>, v: string): (r: Option<MajorOption>)
    ensures r.Some? ==> exists i | 0 <= i < |options| ::
      options[i] == r.value && r.value.value == v && forall j | 0 <= j < i :: options[j].value != v
    ensures r.None? ==> forall i | 0 <= i < |options| :: options[i].value != v
  {
    if options == [] then None
    else if options[0].value == v then Some(options[0])
    else
      var r := FindOption(options[1..], v);
      if r.Some? then
        ghost var i :| 0 <= i < |options[1..]| && options[1..][i] == r.value && r.value.value == v &&
          forall j | 0 <= j < i :: options[1..][j].value != v;
        assert options[i + 1] == r.value && forall j | 0 <= j < i + 1 :: options[j].value != v;
        r
      else r
  }

  /** `getMajorLabel`: the label of a known value, `''` for none, the value itself otherwise. */
  function GetMajorLabel(value: Option<string>): (r: string)
    ensures value.None? || value == Some("") ==> r == ""
    ensures value.Some? && value.value != "" ==>
      (exists i | 0 <= i < |MAJOR_OPTIONS| :: MAJOR_OPTIONS[i].value == value.value && r == MAJOR_OPTIONS[i].labelText)
      || ((forall i | 0 <= i < |MAJOR_OPTIONS| :: MAJOR_OPTIONS[i].value != value.value) && r == value.value)
  {
    if value.None? || value.value == "" then ""
    else
      var option := FindOption(MAJOR_OPTIONS, value.value);
      if option.Some? then option.value.labelText else value.value
  }

  /** No two options share a value, so a value picks out one option. */
  lemma MajorValuesDistinct()
    ensures forall i, j | 0 <= i < j < |MAJOR_OPTIONS| :: MAJOR_OPTIONS[i].value != MAJOR_OPTIONS[j].value
  {
  }

  /** Every option's value maps back to that option's label. */
  lemma {:induction false} KnownMajorLabel(i: int)
    requires 0 <= i < |MAJOR_OPTIONS|
    ensures GetMajorLabel(Some(MAJOR_OPTIONS[i].value)) == MAJOR_OPTIONS[i].labelText
  {
    MajorValuesDistinct();
    var v := MAJOR_OPTIONS[i].value;
    var r := FindOption(MAJOR_OPTIONS, v);
    assert r.Some?;
    var k :| 0 <= k < |MAJOR_OPTIONS| && MAJOR_OPTIONS[k] == r.value && r.value.value == v;
    assert k == i;
  }

  lemma MajorLabelExamples()
    ensures GetMajorLabel(Some("1")) == "计算机"
    ensures GetMajorLabel(Some("6")) == "自动化"
  {
    KnownMajorLabel(0);
    KnownMajorLabel(5);
  }

  /** A value outside the option list is shown as it stands. */
  lemma UnknownMajorLabel(value: string)
    requires value != ""
    requires forall i | 0 <= i < |MAJOR_OPTIONS| :: MAJOR_OPTIONS[i].value != value
    ensures GetMajorLabel(Some(value)) == value
  {
  }

  /** A non-empty value never yields an empty label. */
  lemma MajorLabelNonEmpty(value: string)
    requires value != ""
    ensures GetMajorLabel(Some(value)) != ""
  {
  }
}
