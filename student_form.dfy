/**
 * The `StudentForm`: the per-field rules it registers with react-hook-form,
 * and what a submit does (create or update, then navigate or report).
 */
module StudentForm {
  import opened Wrappers
  import opened Strings
  import opened StudentTypes
  import Server = StudentModel

  datatype Field = Name | Gender | Phone | Age | NativePlace | Major | Email | Tag | Remark

  const FIELDS: set<Field> := {Name, Gender, Phone, Age, NativePlace, Major, Email, Tag, Remark}

  /** The options of the gender `<select>`; the empty one is the "Select Gender" placeholder. */
  const GENDER_OPTIONS: seq<string> := ["", "男", "女", "其他"]

  /** An input's text; an undefined value reads as empty. */
  function Text(o: Option<string>): string {
    if o.Some? then o.value else ""
  }

  /** `^\S+@\S+\.\S+$`: non-space text, `@`, non-space text, `.`, non-space text. */
  predicate EmailShaped(s: string) {
    NoJsWhitespace(s) &&
    exists i, j | 0 < i && i + 1 < j && j + 1 < |s| :: s[i] == '@' && s[j] == '.'
  }

  // One react-hook-form rule: `Some(message)` when it fails. `maxLength` and
  // `pattern` are not applied to an empty value.

  function RequiredRule(value: string, message: string): Option<string> {
    if value == "" then Some(message) else None
  }

  function MaxLengthRule(value: string, max: nat, message: string): Option<string> {
    if value != "" && |value| > max then Some(message) else None
  }

  function PatternRule(value: string, matches: bool, message: string): Option<string> {
    if value != "" && !matches then Some(message) else None
  }

  /** The first failing rule, in react-hook-form's order. */
  function FirstOf(a: Option<string>, b: Option<string>): Option<string> {
    if a.Some? then a else b
  }

  function AgeError(age: Option<int>): Option<string> {
    if age.None? then Some("Age is required")
    else if age.value < 0 then Some("Age must be positive")
    else if age.value > 150 then Some("Age cannot exceed 150")
    else None
  }

  /** The rule each field is meant to enforce, as a plain predicate. */
  predicate Accepts(f: Field, v: Student) {
    match f
    case Name => v.name != "" && |v.name| <= 64
    case Gender => Text(v.gender) != ""
    case Phone => var p := Text(v.phone); p != "" && AllDigits(p) && |p| <= 16
    case Age => v.age.Some? && 0 <= v.age.value <= 150
    case NativePlace => |Text(v.nativePlace)| <= 64
    case Major => Text(v.major) != ""
    case Email => var e := Text(v.email); e == "" || (|e| <= 32 && EmailShaped(e))
    case Tag => |Text(v.tag)| <= 512
    case Remark => |Text(v.remark)| <= 512
  }

  /** The message react-hook-form shows under a field, if any. */
  function FieldError(f: Field, v: Student): (r: Option<string>)
    ensures r.None? <==> Accepts(f, v)
  {
    match f
    case Name =>
      FirstOf(RequiredRule(v.name, "Name is required"),
              MaxLengthRule(v.name, 64, "Name must be less than 64 characters"))
    case Gender => RequiredRule(Text(v.gender), "Gender is required")
    case Phone =>
      var p := Text(v.phone);
      FirstOf(RequiredRule(p, "Phone is required"),
      FirstOf(MaxLengthRule(p, 16, "Phone must be less than 16 characters"),
              PatternRule(p, AllDigits(p), "Phone must contain only digits")))
    case Age => AgeError(v.age)
    case NativePlace =>
      MaxLengthRule(Text(v.nativePlace), 64, "Native place must be less than 64 characters")
    case Major => RequiredRule(Text(v.major), "Major is required")
    case Email =>
      var e := Text(v.email);
      FirstOf(MaxLengthRule(e, 32, "Email must be less than 32 characters"),
              PatternRule(e, EmailShaped(e), "Invalid email format"))
    case Tag => MaxLengthRule(Text(v.tag), 512, "Tags must be less than 512 characters")
    case Remark => MaxLengthRule(Text(v.remark), 512, "Remarks must be less than 512 characters")
  }

  /** All field errors of a submission. */
  function Errors(v: Student): (m: map<Field, string>)
    ensures forall f | f in FIELDS :: f in m <==> !Accepts(f, v)
    ensures forall f | f in m :: f in FIELDS && Some(m[f]) == FieldError(f, v)
  {
    map f | f in FIELDS && FieldError(f, v).Some? :: FieldError(f, v).value
  }

  /** `handleSubmit` calls `onSubmit` only when no rule fails. */
  predicate FormValid(v: Student) {
    Errors(v) == map[]
  }

  lemma FormValidIff(v: Student)
    ensures FormValid(v) <==> forall f | f in FIELDS :: Accepts(f, v)
  {
    if !FormValid(v) {
      var f :| f in Errors(v);
    }
  }

  /** Age 200 is refused with the "exceed" message; age 150 and age 0 pass. */
  lemma AgeExamples(v: Student)
    ensures FieldError(Age, v.(age := Some(200))) == Some("Age cannot exceed 150")
    ensures FieldError(Age, v.(age := Some(-1))) == Some("Age must be positive")
    ensures FieldError(Age, v.(age := None)) == Some("Age is required")
    ensures FieldError(Age, v.(age := Some(150))) == None
    ensures !FormValid(v.(age := Some(200)))
  {
    FormValidIff(v.(age := Some(200)));
  }

  /** Every real gender option passes `required`; only the placeholder fails. */
  lemma GenderOptionsAccepted(v: Student, i: int)
    requires 0 <= i < |GENDER_OPTIONS|
    ensures Accepts(Gender, v.(gender := Some(GENDER_OPTIONS[i]))) <==> i != 0
  {
  }

  /** Every listed major passes `required`. */
  lemma MajorOptionsAccepted(v: Student, i: int)
    requires 0 <= i < |MAJOR_OPTIONS|
    ensures Accepts(Major, v.(major := Some(MAJOR_OPTIONS[i].value)))
  {
  }

  lemma EmailExamples()
    ensures EmailShaped("a@b.c")
    ensures !EmailShaped("a@b")
    ensures !EmailShaped("a b@c.d")
    ensures !EmailShaped("@b.c")
  {
    assert "a@b.c"[1] == '@' && "a@b.c"[3] == '.';
    assert IsJsWhitespace("a b@c.d"[1]);
    assert forall i | 0 <= i < 3 :: "a@b"[i] != '.' || i != 2;
  }

  /**
   * The client's `required` only refuses the empty string, while the server's
   * `@NotBlank` also refuses a name of spaces: such a form is sent and rejected.
   */
  lemma BlankNamePassesClientOnly(v: Student)
    requires v.name == " "
    ensures Accepts(Name, v)
    ensures !Server.NameValid(Some(v.name))
  {
    BlankIffAllTrimmable(v.name);
  }

  /** Where both sides check a length, the client's limit is the server's. */
  lemma ClientLimitsMatchServer(v: Student)
    requires Accepts(Name, v) && !IsBlank(v.name)
    requires Accepts(Phone, v) && Accepts(NativePlace, v) && Accepts(Email, v)
    requires Accepts(Tag, v) && Accepts(Remark, v)
    ensures Server.NameValid(Some(v.name))
    ensures Server.PhoneValid(v.phone)
    ensures Server.SizeAtMost(v.nativePlace, 64) && Server.SizeAtMost(v.email, 32)
    ensures Server.SizeAtMost(v.tag, 512) && Server.SizeAtMost(v.remark, 512)
  {
  }

  /** The API call `onSubmit` makes. */
  datatype SaveCall = CreateCall(data: Student) | UpdateCall(id: int, data: Student)

  const SAVE_ERROR := "Failed to save student. Please try again."

  class StudentFormView {
    /** The record being edited, if any, and the edit flag (both props). */
    const student: Option<Student>
    const isEdit: bool
    var isSubmitting: bool
    var error: string
    var fieldErrors: map<Field, string>
    /** Where `router.push` sent the browser, if it was called. */
    var navigatedTo: Option<string>

    constructor (student: Option<Student>, isEdit: bool)
      ensures this.student == student && this.isEdit == isEdit
      ensures !isSubmitting && error == "" && fieldErrors == map[] && navigatedTo == None
    {
      this.student := student;
      this.isEdit := isEdit;
      isSubmitting := false;
      error := "";
      fieldErrors := map[];
      navigatedTo := None;
    }

    /**
     * `onSubmit`: update when editing a record with a (truthy) id, create
     * otherwise; navigate to `/` on success, show the generic error on failure.
     */
    method OnSubmit(data: Student, saveSucceeded: bool) returns (call: SaveCall)
      modifies this
      ensures call.UpdateCall? <==>
        isEdit && student.Some? && student.value.id.Some? && student.value.id.value != 0
      ensures call.UpdateCall? ==> call == UpdateCall(student.value.id.value, data)
      ensures call.CreateCall? ==> call == CreateCall(data)
      ensures !isSubmitting && fieldErrors == old(fieldErrors)
      ensures saveSucceeded ==> navigatedTo == Some("/") && error == ""
      ensures !saveSucceeded ==> navigatedTo == old(navigatedTo) && error == SAVE_ERROR
    {
      isSubmitting := true;
      error := "";
      if isEdit && student.Some? && student.value.id.Some? && student.value.id.value != 0 {
        call := UpdateCall(student.value.id.value, data);
      } else {
        call := CreateCall(data);
      }
      if saveSucceeded {
        navigatedTo := Some("/");
      } else {
        error := SAVE_ERROR;
      }
      isSubmitting := false;
    }

    /** `handleSubmit(onSubmit)`: validate every field; a refused form makes no API call. */
    method HandleSubmit(data: Student, saveSucceeded: bool) returns (call: Option<SaveCall>)
      modifies this
      ensures fieldErrors == Errors(data)
      ensures call.Some? <==> FormValid(data)
      ensures !FormValid(data) ==>
        isSubmitting == old(isSubmitting) && error == old(error) && navigatedTo == old(navigatedTo)
      ensures FormValid(data) ==> !isSubmitting && (saveSucceeded <==> navigatedTo == Some("/") && error == "")
      ensures FormValid(data) ==> call == Some(
        if isEdit && student.Some? && student.value.id.Some? && student.value.id.value != 0
        then UpdateCall(student.value.id.value, data)
        else CreateCall(data))
      ensures FormValid(data) && saveSucceeded ==> navigatedTo == Some("/") && error == ""
      ensures FormValid(data) && !saveSucceeded ==> navigatedTo == old(navigatedTo) && error == SAVE_ERROR
    {
      fieldErrors := Errors(data);
      if fieldErrors != map[] {
        call := None;
      } else {
        var c := OnSubmit(data, saveSucceeded);
        call := Some(c);
      }
    }
  }
}
