# Student management: a Dafny model

This project models the logic of a small student-records system. The backend is a Spring
service. It keeps student rows that are only ever soft-deleted, selects them with repository
queries, maps them to transfer objects and wraps every answer in a `{success, message, data}`
envelope. The frontend is a React app. Its list view keeps pagination state, draws two
different page-number windows, and its form validates fields before it creates or updates
a record.

Modules, one per source file:

- `StudentModel`: the `Student` entity and the `StudentDTO`, the mapping between them, and the DTO's validation constraints.
- `ApiResponses`: the envelope factories.
- `StudentRepository`: the query predicates over a table. The table is a map from id to row.
- `StudentServiceImpl`: a class holding that table and the identity counter. Create, update and delete are methods. Reads and searches are functions of the table.
- `StudentController`: each endpoint's status and envelope, the paged-response map and the query defaults.
- `StudentTypes`: the frontend's record shapes and the major lookup.
- `Pagination`: the shared pagination component. `GetPageNumbers` is a loop proved against `PageWindow`.
- `StudentList`: the list view as a class, plus its own page strip and range label.
- `StudentForm`: the field rules and the submit flow.
- `Strings` and `Wrappers`: shared helpers.

Modelling choices:

- `repository.save` overwrites the stored row when the entity's id names one. Any other entity gets a fresh id from the counter. This is how a merge behaves under an identity column.
- The free-text query is modelled as SQL `LIKE`, with `%` and `_` as wildcards. For a term without wildcards it is proved equal to lower-cased substring search. The term is not escaped, so `%` matches every non-null column and `_` every non-empty one.
- The derived `...Containing` queries are plain substring search, because the framework escapes their argument.
- A form's field error is the message of its first failing rule. Rules run in the library's order: required, then min/max, then maxLength, then pattern. `maxLength` and `pattern` are not applied to an empty value.
- The client accepts a name made only of spaces, which the server's `@NotBlank` rejects. `BlankNamePassesClientOnly` shows this.
- The frontend's `student?.id` test is a truthiness test, so an id of 0 leads to a create.

## Model

| member | source | states |
|---|---|---|
| `Strings.TrimStart` | backend/src/main/java/com/studentmgmt/backend/service/StudentServiceImpl.java:100 | removes a leading run of characters at most U+0020, all of them, and keeps the rest unchanged |
| `Strings.TrimEnd` | backend/src/main/java/com/studentmgmt/backend/service/StudentServiceImpl.java:100 | removes a trailing run of characters at most U+0020, all of them, and keeps the rest unchanged |
| `Strings.Trim` | backend/src/main/java/com/studentmgmt/backend/service/StudentServiceImpl.java:100 | definition of Java `trim()`: drops leading and trailing characters at most U+0020 |
| `Strings.IsBlank` | backend/src/main/java/com/studentmgmt/backend/service/StudentServiceImpl.java:100 | definition: `trim().isEmpty()` |
| `Strings.BlankIffAllTrimmable` | backend/src/main/java/com/studentmgmt/backend/service/StudentServiceImpl.java:100 | `trim().isEmpty()` holds exactly when every character is at most U+0020 |
| `StudentModel.FromEntity` | backend/src/main/java/com/studentmgmt/backend/model/StudentDTO.java:55-70 | the DTO turns back into the entity with only `isDelete`, `createTime` and `modifyTime` reset, so the twelve other fields are copied and those three dropped |
| `StudentModel.ToEntity` | backend/src/main/java/com/studentmgmt/backend/model/StudentDTO.java:72-88 | the new entity is live (`isDelete = 0`) and has no timestamps |
| `StudentModel.DtoRoundTrip` | backend/src/main/java/com/studentmgmt/backend/model/StudentDTO.java:55-88 | `fromEntity(toEntity(d)) == d` on all twelve fields |
| `StudentModel.FromEntityIgnoresBookkeeping` | backend/src/main/java/com/studentmgmt/backend/model/StudentDTO.java:55-70 | the DTO does not depend on the deletion flag or the timestamps |
| `StudentModel.NameValid` | backend/src/main/java/com/studentmgmt/backend/model/StudentDTO.java:23-25 | definition: present, not blank after trimming, at most 64 characters |
| `StudentModel.PhoneValid` | backend/src/main/java/com/studentmgmt/backend/model/StudentDTO.java:30-32 | definition: null, or only the digits 0-9 and at most 16 characters |
| `StudentModel.DtoValid` | backend/src/main/java/com/studentmgmt/backend/model/StudentDTO.java:23-50 | definition: the name and phone rules, gender at most 8, native place 64, major 128, email 32, tag and remark 512 characters; age unconstrained |
| `StudentModel.NameValidIff` | backend/src/main/java/com/studentmgmt/backend/model/StudentDTO.java:23-25 | a name is valid iff it is present, at most 64 characters long and has a character above U+0020 |
| `StudentModel.AgeUnconstrained` | backend/src/main/java/com/studentmgmt/backend/model/StudentDTO.java:34 | changing the age never changes DTO validity |
| `ApiResponses.Success` | backend/src/main/java/com/studentmgmt/backend/model/ApiResponse.java:28-30 | success flag set; data and message stored unchanged |
| `ApiResponses.SuccessDefault` | backend/src/main/java/com/studentmgmt/backend/model/ApiResponse.java:39-41 | a success envelope with message "Operation successful" |
| `ApiResponses.Error` | backend/src/main/java/com/studentmgmt/backend/model/ApiResponse.java:50-52 | success flag cleared, no data, message kept |
| `StudentRepository.Like` | backend/src/main/java/com/studentmgmt/backend/repository/StudentRepository.java:81-86 | definition of SQL `LIKE`: `%` matches any run of characters, `_` exactly one, any other character itself |
| `StudentRepository.FieldLike` | backend/src/main/java/com/studentmgmt/backend/repository/StudentRepository.java:81-86 | definition: a non-null column whose lower-cased value is `LIKE` the lower-cased `'%' + term + '%'` |
| `StudentRepository.SearchMatches` | backend/src/main/java/com/studentmgmt/backend/repository/StudentRepository.java:81-86 | definition of the `WHERE` clause: name, phone or email matches, and the flag equals the argument |
| `StudentRepository.ContainsLike` | backend/src/main/java/com/studentmgmt/backend/repository/StudentRepository.java:81-86 | whatever wildcards the term holds, a column containing it matches `'%' + term + '%'`, so every substring hit is a `LIKE` hit |
| `StudentRepository.LikeContains` | backend/src/main/java/com/studentmgmt/backend/repository/StudentRepository.java:81-86 | for a term without wildcards, `LIKE '%t%'` matches exactly the strings containing t |
| `StudentRepository.FieldLikeIsLowerSubstring` | backend/src/main/java/com/studentmgmt/backend/repository/StudentRepository.java:81-86 | a column matches a wildcard-free term iff lower(term) is a substring of lower(column) |
| `StudentRepository.PercentMatchesAll` | backend/src/main/java/com/studentmgmt/backend/repository/StudentRepository.java:81-86 | the unescaped term "%" matches every non-null column |
| `StudentRepository.UnderscoreMatchesNonEmpty` | backend/src/main/java/com/studentmgmt/backend/repository/StudentRepository.java:81-86 | the unescaped term "_" matches exactly the non-empty columns |
| `StudentRepository.FindByIsDelete` | backend/src/main/java/com/studentmgmt/backend/repository/StudentRepository.java:25 | exactly the rows with the given flag, unchanged |
| `StudentRepository.FindByNameContainingAndIsDelete` | backend/src/main/java/com/studentmgmt/backend/repository/StudentRepository.java:43 | exactly the rows whose non-null name contains the argument and whose flag matches |
| `StudentRepository.FindByPhoneContainingAndIsDelete` | backend/src/main/java/com/studentmgmt/backend/repository/StudentRepository.java:62 | the same selection on phone |
| `StudentRepository.SearchStudents` | backend/src/main/java/com/studentmgmt/backend/repository/StudentRepository.java:81-86 | exactly the rows whose name, phone or email matches the pattern and whose flag equals the argument |
| `StudentRepository.QueriesRespectFlag` | backend/src/main/java/com/studentmgmt/backend/repository/StudentRepository.java:25-86 | every query's result lies within `findByIsDelete` of the same flag |
| `StudentRepository.NameHitIsSearchHit` | backend/src/main/java/com/studentmgmt/backend/repository/StudentRepository.java:43-86 | for any argument, wildcards included, every name hit is also a free-text search hit |
| `StudentServiceImpl.ApplyUpdate` | backend/src/main/java/com/studentmgmt/backend/service/StudentServiceImpl.java:63-74 | the updated row reads back as the request DTO except id, userId and creator, which are kept along with the flag and timestamps |
| `StudentServiceImpl.SoftDelete` | backend/src/main/java/com/studentmgmt/backend/service/StudentServiceImpl.java:88-92 | same ids, the target no longer live, every other row unchanged |
| `StudentServiceImpl.SoftDeleteIdempotent` | backend/src/main/java/com/studentmgmt/backend/service/StudentServiceImpl.java:85-95 | deleting twice gives the same table as deleting once |
| `StudentServiceImpl.SoftDeleteHidesOnlyTarget` | backend/src/main/java/com/studentmgmt/backend/service/StudentServiceImpl.java:85-95 | after a delete, a row is live iff it was live before and is not the target |
| `StudentServiceImpl.StudentService.Save` | backend/src/main/java/com/studentmgmt/backend/service/StudentServiceImpl.java:54 | a stored id is overwritten in place; otherwise the row is inserted under a fresh id and the counter advances |
| `StudentServiceImpl.StudentService.GetAllStudents` | backend/src/main/java/com/studentmgmt/backend/service/StudentServiceImpl.java:30-35 | exactly the rows with `isDelete = 0`, as DTOs |
| `StudentServiceImpl.StudentService.GetStudentById` | backend/src/main/java/com/studentmgmt/backend/service/StudentServiceImpl.java:44-48 | present iff the id exists and its row is live |
| `StudentServiceImpl.StudentService.CreateStudent` | backend/src/main/java/com/studentmgmt/backend/service/StudentServiceImpl.java:51-56 | the row is stored live; the result equals the input except for the id, and get-by-id of that id returns it |
| `StudentServiceImpl.StudentService.UpdateStudent` | backend/src/main/java/com/studentmgmt/backend/service/StudentServiceImpl.java:59-82 | a live row gets the nine fields and reads back as the result; a missing or deleted row leaves the table alone and the input is returned as is |
| `StudentServiceImpl.StudentService.DeleteStudent` | backend/src/main/java/com/studentmgmt/backend/service/StudentServiceImpl.java:85-96 | true iff the id exists, deleted or not; the row is kept and flagged; the live listing loses exactly that id; already-deleted rows are left unchanged |
| `StudentServiceImpl.StudentService.SearchStudents` | backend/src/main/java/com/studentmgmt/backend/service/StudentServiceImpl.java:99-108 | a null or blank term gives `getAllStudents`; otherwise exactly the live rows the query selects |
| `StudentServiceImpl.StudentService.FindStudentsByName` | backend/src/main/java/com/studentmgmt/backend/service/StudentServiceImpl.java:121-126 | exactly the live rows whose name contains the argument |
| `StudentServiceImpl.StudentService.FindStudentsByPhone` | backend/src/main/java/com/studentmgmt/backend/service/StudentServiceImpl.java:135-140 | exactly the live rows whose phone contains the argument |
| `StudentServiceImpl.DeletedRowsInvisible` | backend/src/main/java/com/studentmgmt/backend/service/StudentServiceImpl.java:31 | a soft-deleted row appears in no read or search |
| `StudentController.GetAllStudents` | backend/src/main/java/com/studentmgmt/backend/controller/StudentController.java:41-45 | 200 with every live record |
| `Strings.IntToString` | backend/src/main/java/com/studentmgmt/backend/controller/StudentController.java:84 | the decimal digits of the id without leading zeros, with a leading `-` for a negative id, so the digits spell exactly `abs(id)` |
| `StudentController.GetStudentById` | backend/src/main/java/com/studentmgmt/backend/controller/StudentController.java:77-85 | 200 with the record iff it is live; else 404 with "Student not found with ID: " and the id |
| `StudentController.GetStudentByIdEnvelope` | backend/src/main/java/com/studentmgmt/backend/controller/StudentController.java:77-85 | a client can trust the envelope: status 200 iff `success`, and `data` is present iff `success` (a failed envelope never carries data) |
| `StudentController.CreateStudent` | backend/src/main/java/com/studentmgmt/backend/controller/StudentController.java:93-98 | 201 with the created record, which get-by-id then returns; the table gains exactly that row and every other row is unchanged |
| `StudentController.UpdateStudent` | backend/src/main/java/com/studentmgmt/backend/controller/StudentController.java:107-121 | the service update runs only for a live id (200); otherwise 404 and the table is unchanged |
| `StudentController.DeleteStudent` | backend/src/main/java/com/studentmgmt/backend/controller/StudentController.java:129-139 | 200 with null data iff the service found the id; else 404 |
| `StudentController.SearchStudents` | backend/src/main/java/com/studentmgmt/backend/controller/StudentController.java:147-151 | 200 with the service's search; a missing term lists every live record |
| `StudentController.FindStudentsByName` | backend/src/main/java/com/studentmgmt/backend/controller/StudentController.java:185-189 | 200 with the name search |
| `StudentController.FindStudentsByPhone` | backend/src/main/java/com/studentmgmt/backend/controller/StudentController.java:223-227 | 200 with the phone search |
| `StudentController.CreatePageResponse` | backend/src/main/java/com/studentmgmt/backend/controller/StudentController.java:261-272 | exactly the eight keys, each copied from the page |
| `StudentController.PageResponseRoundTrip` | backend/src/main/java/com/studentmgmt/backend/controller/StudentController.java:261-272 | the frontend's `PaginatedResponse` read from the map carries every field of the page |
| `StudentController.PagedResponse` | backend/src/main/java/com/studentmgmt/backend/controller/StudentController.java:163-177 | 200 with the page map and the endpoint's message |
| `StudentController.WithDefaults` | backend/src/main/java/com/studentmgmt/backend/controller/StudentController.java:58-61 | an absent parameter becomes page 0, size 10, sort "id" or direction "ASC"; a present one is kept |
| `StudentController.DefaultPaging` | backend/src/main/java/com/studentmgmt/backend/controller/StudentController.java:166-169 | a request without paging parameters asks for `(0, 10, "id", "ASC")` |
| `StudentTypes.FindOption` | frontend/src/types/student.ts:46 | the first option with that value, or none when no option has it |
| `StudentTypes.GetMajorLabel` | frontend/src/types/student.ts:44-48 | `''` for no value; a known value's label; an unknown value unchanged |
| `StudentTypes.MajorValuesDistinct` | frontend/src/types/student.ts:30-37 | no two options share a value |
| `StudentTypes.KnownMajorLabel` | frontend/src/types/student.ts:30-47 | every option's value maps to that option's own label |
| `StudentTypes.MajorLabelExamples` | frontend/src/types/student.ts:30-47 | '1' gives 计算机 and '6' gives 自动化 |
| `StudentTypes.UnknownMajorLabel` | frontend/src/types/student.ts:47 | a value outside the list is returned as is |
| `StudentTypes.MajorLabelNonEmpty` | frontend/src/types/student.ts:45-47 | a non-empty value never gives an empty label |
| `Pagination.WindowStart` | frontend/components/common/Pagination.tsx:21-31 | definition: `max(0, cp-2)`; when `tp > 5`, fewer than five pages fit and the window ends at the last page but does not start at 0, it is `max(0, tp-5)` instead |
| `Pagination.WindowEnd` | frontend/components/common/Pagination.tsx:21-31 | definition: `min(tp-1, cp+2)`; when `tp > 5`, fewer than five pages fit and the window starts at page 0, it is `min(4, tp-1)` instead |
| `Pagination.PageWindow` | frontend/components/common/Pagination.tsx:21-36 | definition: the consecutive pages from `WindowStart` to `WindowEnd` |
| `Pagination.GetPageNumbers` | frontend/components/common/Pagination.tsx:17-39 | the loop yields `PageWindow`, a run of consecutive ascending integers |
| `Pagination.WindowInBounds` | frontend/components/common/Pagination.tsx:21-31 | for `0 <= cp < tp` every entry is in `[0, tp-1]` and `cp` is in the window |
| `Pagination.WindowHasFive` | frontend/components/common/Pagination.tsx:25-31 | for `tp > 5` and in-range `cp` the window has exactly five entries |
| `Pagination.WindowNoShift` | frontend/components/common/Pagination.tsx:21-25 | for `tp <= 5` the window is `max(0,cp-2)..min(tp-1,cp+2)` |
| `Pagination.Render` | frontend/components/common/Pagination.tsx:41-121 | nothing rendered iff `tp <= 1`; previous disabled iff `cp = 0`, next iff `cp = tp-1`; the buttons are the window |
| `Pagination.ControlsMatchWindow` | frontend/components/common/Pagination.tsx:61-96 | first button iff `w[0] > 0` (page 0 not shown), leading ellipsis iff `w[0] > 1`; last button iff `last < tp-1`, trailing ellipsis iff `last < tp-2` |
| `Pagination.RenderExamples` | frontend/components/common/Pagination.tsx:17-41 | `cp=0,tp=10` gives `[0..4]` with trailing controls; `cp=9,tp=10` gives `[5..9]` with leading controls; `tp=5,cp=0` gives `[0,1,2]` |
| `StudentList.InlineSlots` | frontend/components/student/StudentList.tsx:234-240 | `min(5,tp)` slots (none for `tp <= 0`); slot i is page i, or `cp-2+i` once `cp > 2` |
| `StudentList.Below` | frontend/components/student/StudentList.tsx:241 | keeps exactly the slots below `tp` |
| `StudentList.BelowIncreasing` | frontend/components/student/StudentList.tsx:241 | dropping slots keeps the strip strictly increasing |
| `StudentList.BelowIsPrefix` | frontend/components/student/StudentList.tsx:241 | on rising slots the dropped ones form a suffix |
| `StudentList.InlinePages` | frontend/components/student/StudentList.tsx:234-241 | definition: the inline slots with every slot at or beyond the last page dropped |
| `StudentList.InlinePagesShape` | frontend/components/student/StudentList.tsx:234-241 | shown pages strictly increase, number at most five and lie in `[0, tp)` |
| `StudentList.InlinePagesHoldCurrent` | frontend/components/student/StudentList.tsx:234-241 | an in-range current page is shown |
| `StudentList.InlinePagesExamples` | frontend/components/student/StudentList.tsx:234-241 | `cp=9,tp=10` shows `[7,8,9]`, unlike the shared component |
| `StudentList.RangeLabel` | frontend/components/student/StudentList.tsx:218-220 | the upper bound is `min((cp+1)*size, totalItems)`, never above `totalItems` |
| `StudentList.RangeLabelNonEmpty` | frontend/components/student/StudentList.tsx:218-222 | on consistent counts the label has `1 <= X <= Y` and covers at most one page |
| `StudentList.StudentListView.constructor` | frontend/components/student/StudentList.tsx:11-27 | the initial state is `currentPage 0, totalPages 0, totalItems 0, size 10` with no rows, no error and no pager |
| `StudentList.StudentListView.PagerView` | frontend/components/student/StudentList.tsx:147-265 | the pager shows iff the table is shown and `totalPages > 1`; prev/next disabled at the ends; the strip is `InlinePages` |
| `StudentList.StudentListView.SetSearchTerm` | frontend/components/student/StudentList.tsx:122 | only the search term changes |
| `StudentList.StudentListView.HandlePageChange` | frontend/components/student/StudentList.tsx:78-82 | `currentPage := p` only when `0 <= p < totalPages`; nothing else changes |
| `StudentList.StudentListView.HandleSearch` | frontend/components/student/StudentList.tsx:68-73 | `currentPage := 0`; totalPages, totalItems and size kept |
| `StudentList.StudentListView.FetchStudents` | frontend/components/student/StudentList.tsx:37-63 | the request is the current page, size and term, sorted by name ascending; success replaces the rows and all four counts; failure sets the fixed message and keeps them; loading ends either way |
| `StudentList.StudentListView.HandleDelete` | frontend/components/student/StudentList.tsx:87-100 | nothing without confirmation; after a successful delete a refetch of the current page whose rows and four pagination counts replace the old ones (kept, with the fetch message, if the refetch fails); the fixed delete message after a failed delete |
| `StudentForm.Accepts` | frontend/components/student/StudentForm.tsx:87-225 | definition of each field's rule, independent of the messages |
| `StudentForm.EmailShaped` | frontend/components/student/StudentForm.tsx:194 | definition of `^\S+@\S+\.\S+$`: no JavaScript whitespace, an `@` after the first character, and a later `.` with characters on both sides |
| `StudentForm.AgeError` | frontend/components/student/StudentForm.tsx:142-147 | definition: "Age is required" when absent, then the min message below 0, then the max message above 150 |
| `StudentForm.FieldError` | frontend/components/student/StudentForm.tsx:87-225 | a field has no error iff it meets its rule: name 1..64; gender and major present; phone non-empty digits at most 16; age present in 0..150; native place at most 64; email empty or `\S+@\S+\.\S+` of at most 32; tag and remark at most 512 |
| `StudentForm.Errors` | frontend/components/student/StudentForm.tsx:91-229 | one entry per failing field, holding its first failing rule's message |
| `StudentForm.FormValidIff` | frontend/components/student/StudentForm.tsx:77 | the form submits iff every field meets its rule |
| `StudentForm.AgeExamples` | frontend/components/student/StudentForm.tsx:142-147 | age 200 fails with "Age cannot exceed 150", -1 with "Age must be positive", none with "Age is required"; 150 passes |
| `StudentForm.GenderOptionsAccepted` | frontend/components/student/StudentForm.tsx:103-109 | 男, 女 and 其他 pass; only the placeholder fails |
| `StudentForm.MajorOptionsAccepted` | frontend/components/student/StudentForm.tsx:174-182 | every listed major passes |
| `StudentForm.EmailExamples` | frontend/components/student/StudentForm.tsx:194 | "a@b.c" matches; "a@b", "@b.c" and one with a space do not |
| `StudentForm.BlankNamePassesClientOnly` | frontend/components/student/StudentForm.tsx:87-90 | a name of one space passes the client and fails the server's `@NotBlank` |
| `StudentForm.ClientLimitsMatchServer` | frontend/components/student/StudentForm.tsx:122-225 | a non-blank form the client accepts meets the server's name, phone, native place, email, tag and remark size limits |
| `StudentForm.StudentFormView.constructor` | frontend/components/student/StudentForm.tsx:18-21 | not submitting, no error, nothing navigated |
| `StudentForm.StudentFormView.OnSubmit` | frontend/components/student/StudentForm.tsx:41-62 | update iff editing a record with a truthy id, else create; success navigates to `/`; failure sets the generic error; `isSubmitting` ends false |
| `StudentForm.StudentFormView.HandleSubmit` | frontend/components/student/StudentForm.tsx:77 | field errors recorded; an API call is made iff the form is valid, and it is the update when editing a record with a truthy id and the create otherwise; after the call, success navigates to `/` and failure shows the generic save error and stays on the page |

## Left out

- Paged service and repository variants (`Page`, `PageRequest`, sorting, slicing): the page is taken as a given value. Only `createPageResponse` and the defaults are modelled. The paged queries use the same `WHERE` clauses as the list ones.
- Result order: lists are modelled as maps from id to DTO, so the database's row order is not captured.
- `Sort.Direction.fromString` and the upper-casing of `direction`: the direction stays a string.
- Bean-Validation's `@Email` check is not modelled, only its `@Size`. An invalid body is never passed to a create or update handler, so those handlers require `DtoValid`. The framework's 400 reply sits outside the handlers.
- `@CreationTimestamp`/`@UpdateTimestamp`: save carries the timestamps as given and does not stamp them (clock).
- The model's `LOWER` folds ASCII letters only. The database's own Unicode case tables and collation, and `LIKE`'s escape character, are not modelled.
- Integer widths (`Long` ids, JavaScript numbers) are unbounded. Lengths count characters, not UTF-16 code units.
- The HTTP client in frontend/src/api/studentApi.ts is not part of this model. A fetch, save or delete shows up only as a success-or-failure input.
- React rendering, `useEffect` scheduling and the async interleaving of `fetchStudents`. This includes the stale page it reads right after `handleSearch`. `HandleSearch` models only the reset.
- `window.confirm` and `router.push` become a boolean input and the `navigatedTo` field.
- The form values themselves live in the form library. They are not view state here, so keeping them on failure is not stated.
- HandleSubmit: the browser's own form check is not modelled. The form has no `noValidate`, so the age input's `min="0"`/`max="150"` and the email input's `type="email"` can block submission before the form library's handler runs. `call.Some? <==> FormValid(data)` describes the handler once the submit event fires, and the age and email messages of `FieldError` are the library's, not the browser's.
- `valueAsNumber` parsing: the age is an optional integer (no NaN, no fractions).
- The detail, layout and page components, the test-data initializer and the application bootstrap are presentation or setup only.
