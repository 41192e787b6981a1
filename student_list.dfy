/**
 * The `StudentList` view: its pagination state and the transitions that the
 * page buttons, the search form, a fetch and a delete make to it, plus the
 * view's own page-number strip and "Showing X to Y" label.
 */
module StudentList {
  import opened Wrappers
  import opened StudentTypes
  import P = Pagination

  datatype PaginationState = PaginationState(currentPage: int, totalPages: int, totalItems: int, size: int)

  const INITIAL_PAGINATION := PaginationState(0, 0, 0, 10)
  const FETCH_ERROR := "Failed to load students. Please try again later."
  const DELETE_ERROR := "Failed to delete student. Please try again later."

  /** How the awaited `searchStudentsPaged` call ended. */
  datatype FetchOutcome = Fetched(data: PaginatedResponse<Student>) | FetchFailed

  /** The request `fetchStudents` sends: the search term and the paging parameters. */
  datatype FetchRequest = FetchRequest(term: string, params: PageParams)

  // The page-number strip: `Array.from({length: min(5, totalPages)}, ...)`.

  /** Slot `i` shows page `i`, or `cp - 2 + i` once the current page is past 2. */
  function InlineSlot(cp: int, i: int): int {
    if cp > 2 then cp - 2 + i else i
  }

  function InlineSlots(cp: int, tp: int): (s: seq<int>)
    ensures |s| == P.Max(0, P.Min(5, tp))
    ensures forall i | 0 <= i < |s| :: s[i] == InlineSlot(cp, i)
  {
    seq(P.Max(0, P.Min(5, tp)), i => InlineSlot(cp, i))
  }

  predicate StrictlyIncreasing(s: seq<int>) {
    forall i, j | 0 <= i < j < |s| :: s[i] < s[j]
  }

  /** The slots left once those that return `null` (a page `>= tp`) are dropped. */
  function Below(s: seq<int>, tp: int): (r: seq<int>)
    ensures |r| <= |s|
    ensures forall x | x in r :: x in s && x < tp
    ensures forall x | x in s && x < tp :: x in r
  {
    if s == [] then []
    else if s[0] < tp then
      var rest := Below(s[1..], tp);
      assert forall x | x in rest :: x in s[1..];
      [s[0]] + rest
    else Below(s[1..], tp)
  }

  /** Dropping slots keeps a rising sequence rising. */
  lemma {:induction false} BelowIncreasing(s: seq<int>, tp: int)
    requires StrictlyIncreasing(s)
    ensures StrictlyIncreasing(Below(s, tp))
  {
    if s != [] {
      assert StrictlyIncreasing(s[1..]);
      BelowIncreasing(s[1..], tp);
      if s[0] < tp {
        var rest := Below(s[1..], tp);
        var r := [s[0]] + rest;
        forall x | x in rest ensures s[0] < x {
          var k :| 0 <= k < |s[1..]| && s[1..][k] == x;
          assert s[k + 1] == x;
        }
        assert forall j | 1 <= j < |r| :: r[j] == rest[j - 1] && r[j] in rest;
      }
    }
  }

  /** The pages the strip shows. */
  function InlinePages(cp: int, tp: int): seq<int> {
    Below(InlineSlots(cp, tp), tp)
  }

  /** The strip's pages rise strictly, number at most five and stay in `[0, tp)`. */
  lemma InlinePagesShape(cp: int, tp: int)
    ensures StrictlyIncreasing(InlinePages(cp, tp))
    ensures |InlinePages(cp, tp)| <= 5
    ensures forall x | x in InlinePages(cp, tp) :: 0 <= x < tp
  {
    var s := InlineSlots(cp, tp);
    assert StrictlyIncreasing(s);
    BelowIncreasing(s, tp);
    assert forall x | x in s :: 0 <= x;
  }

  /** For an in-range current page the strip shows it. */
  lemma InlinePagesHoldCurrent(cp: int, tp: int)
    requires 0 <= cp < tp
    ensures cp in InlinePages(cp, tp)
  {
    var s := InlineSlots(cp, tp);
    if cp > 2 {
      assert s[2] == cp;
    } else {
      assert s[cp] == cp;
    }
  }

  /** The slots rise, so dropping those `>= tp` keeps a prefix. */
  lemma {:induction false} BelowIsPrefix(s: seq<int>, tp: int, n: int)
    requires 0 <= n <= |s|
    requires forall i | 0 <= i < n :: s[i] < tp
    requires forall i | n <= i < |s| :: s[i] >= tp
    ensures Below(s, tp) == s[..n]
  {
    if s != [] {
      if n > 0 {
        BelowIsPrefix(s[1..], tp, n - 1);
        assert s[..n] == [s[0]] + s[1..][..n - 1];
      } else {
        BelowIsPrefix(s[1..], tp, 0);
      }
    }
  }

  /** The strip applies no boundary shift, unlike the `Pagination` component. */
  lemma InlinePagesExamples()
    ensures InlinePages(9, 10) == [7, 8, 9]
    ensures InlinePages(0, 10) == [0, 1, 2, 3, 4]
    ensures InlinePages(9, 10) != P.PageWindow(9, 10)
  {
    var s := InlineSlots(9, 10);
    BelowIsPrefix(s, 10, 3);
    assert s[..3] == [7, 8, 9];
    var t := InlineSlots(0, 10);
    BelowIsPrefix(t, 10, 5);
    assert t[..5] == [0, 1, 2, 3, 4];
    assert |P.PageWindow(9, 10)| == 5 by { P.WindowHasFive(9, 10); }
  }

  // The "Showing X to Y of N results" label.

  datatype ShownRange = ShownRange(first: int, last: int)

  function RangeLabel(p: PaginationState): (r: ShownRange)
    ensures r.last <= p.totalItems
    ensures r.last <= (p.currentPage + 1) * p.size
    ensures r.last == p.totalItems || r.last == (p.currentPage + 1) * p.size
  {
    ShownRange(p.currentPage * p.size + 1, P.Min((p.currentPage + 1) * p.size, p.totalItems))
  }

  /** The counts agree: `totalPages` pages of `size` hold the `totalItems` rows, the last one partly. */
  predicate Consistent(p: PaginationState) {
    p.size > 0 && 0 <= p.currentPage < p.totalPages &&
    (p.totalPages - 1) * p.size < p.totalItems <= p.totalPages * p.size
  }

  lemma MulMono(a: int, b: int, c: int)
    requires 0 <= a <= b && c >= 0
    ensures a * c <= b * c
  {
  }

  /** On consistent counts the label names a non-empty run of at most `size` rows. */
  lemma RangeLabelNonEmpty(p: PaginationState)
    requires Consistent(p)
    ensures 1 <= RangeLabel(p).first <= RangeLabel(p).last
    ensures RangeLabel(p).last - RangeLabel(p).first < p.size
  {
    MulMono(p.currentPage, p.totalPages - 1, p.size);
    MulMono(0, p.currentPage, p.size);
    assert (p.currentPage + 1) * p.size == p.currentPage * p.size + p.size;
  }

  /** The pager row under the table. */
  datatype Pager = Pager(shown: ShownRange, prevDisabled: bool, pages: seq<int>, nextDisabled: bool)

  class StudentListView {
    var students: seq<Student>
    var searchTerm: string
    var isLoading: bool
    var error: string
    var pagination: PaginationState

    constructor ()
      ensures students == [] && searchTerm == "" && !isLoading && error == ""
      ensures pagination == PaginationState(0, 0, 0, 10)
      ensures PagerView().None?
    {
      students := [];
      searchTerm := "";
      isLoading := false;
      error := "";
      pagination := INITIAL_PAGINATION;
    }

    /**
     * The pager, shown when the table is (loading, or rows present) and there
     * is more than one page.
     */
    function PagerView(): (r: Option<Pager>)
      reads this
      ensures r.Some? <==> !(!isLoading && |students| == 0) && pagination.totalPages > 1
      ensures r.Some? ==> r.value.pages == InlinePages(pagination.currentPage, pagination.totalPages)
      ensures r.Some? ==> (r.value.prevDisabled <==> pagination.currentPage == 0)
      ensures r.Some? ==> (r.value.nextDisabled <==> pagination.currentPage == pagination.totalPages - 1)
    {
      if !isLoading && |students| == 0 then None
      else if pagination.totalPages > 1 then
        var p := pagination;
        Some(Pager(RangeLabel(p), p.currentPage == 0, InlinePages(p.currentPage, p.totalPages),
                   p.currentPage == p.totalPages - 1))
      else None
    }

    /** The search box's `onChange`. */
    method SetSearchTerm(term: string)
      modifies this
      ensures searchTerm == term
      ensures students == old(students) && isLoading == old(isLoading)
      ensures error == old(error) && pagination == old(pagination)
    {
      searchTerm := term;
    }

    /** `handlePageChange`: moves only to an existing page, and touches nothing else. */
    method HandlePageChange(newPage: int)
      modifies this
      ensures 0 <= newPage < old(pagination.totalPages) ==>
        pagination == old(pagination).(currentPage := newPage)
      ensures !(0 <= newPage < old(pagination.totalPages)) ==> pagination == old(pagination)
      ensures students == old(students) && searchTerm == old(searchTerm)
      ensures isLoading == old(isLoading) && error == old(error)
    {
      if newPage >= 0 && newPage < pagination.totalPages {
        pagination := pagination.(currentPage := newPage);
      }
    }

    /** `handleSearch`: back to the first page, the counts kept. */
    method HandleSearch()
      modifies this
      ensures pagination == old(pagination).(currentPage := 0)
      ensures students == old(students) && searchTerm == old(searchTerm)
      ensures isLoading == old(isLoading) && error == old(error)
    {
      pagination := pagination.(currentPage := 0);
    }

    /**
     * `fetchStudents`: sends the current page, size and term, sorted by name
     * ascending; a success replaces the rows and all four counts, a failure
     * keeps them and sets the fixed message. Loading is over either way.
     */
    method FetchStudents(outcome: FetchOutcome) returns (request: FetchRequest)
      modifies this
      ensures request == FetchRequest(old(searchTerm),
        PageParams(old(pagination.currentPage), old(pagination.size), "name", ASC))
      ensures !isLoading && searchTerm == old(searchTerm)
      ensures outcome.Fetched? ==>
        && students == outcome.data.content
        && pagination == PaginationState(outcome.data.currentPage, outcome.data.totalPages,
                                         outcome.data.totalItems, outcome.data.size)
        && error == ""
      ensures outcome.FetchFailed? ==>
        students == old(students) && pagination == old(pagination) && error == FETCH_ERROR
    {
      isLoading := true;
      error := "";
      var pageParams := PageParams(pagination.currentPage, pagination.size, "name", ASC);
      request := FetchRequest(searchTerm, pageParams);
      match outcome {
        case Fetched(data) =>
          students := data.content;
          pagination := PaginationState(data.currentPage, data.totalPages, data.totalItems, data.size);
        case FetchFailed =>
          error := FETCH_ERROR;
      }
      isLoading := false;
    }

    /**
     * `handleDelete`: nothing without confirmation; after a successful delete
     * a full refetch; after a failed one the fixed message.
     */
    method HandleDelete(confirmed: bool, deleteSucceeded: bool, refetch: FetchOutcome)
      returns (deleteSent: bool, request: Option<FetchRequest>)
      modifies this
      ensures deleteSent == confirmed
      ensures !confirmed ==>
        && request == None && students == old(students) && pagination == old(pagination)
        && error == old(error) && isLoading == old(isLoading)
      ensures confirmed && !deleteSucceeded ==>
        && request == None && students == old(students) && pagination == old(pagination)
        && error == DELETE_ERROR && isLoading == old(isLoading)
      ensures confirmed && deleteSucceeded ==>
        && request == Some(FetchRequest(old(searchTerm),
             PageParams(old(pagination.currentPage), old(pagination.size), "name", ASC)))
        && !isLoading
        && (refetch.Fetched? ==> students == refetch.data.content && error == "")
        && (refetch.Fetched? ==> pagination == PaginationState(refetch.data.currentPage,
              refetch.data.totalPages, refetch.data.totalItems, refetch.data.size))
        && (refetch.FetchFailed? ==> students == old(students) && error == FETCH_ERROR)
        && (refetch.FetchFailed? ==> pagination == old(pagination))
      ensures searchTerm == old(searchTerm)
    {
      request := None;
      deleteSent := confirmed;
      if !confirmed {
        return;
      }
      if deleteSucceeded {
        var sent := FetchStudents(refetch);
        request := Some(sent);
      } else {
        error := DELETE_ERROR;
      }
    }
  }
}
