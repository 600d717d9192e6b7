/** The program directory page: the list pipeline that turns the loaded
    programs into the rows shown (keyword filter, date and college filters,
    sort, ten-row pages), the page and sort controls, the local removal after
    a delete, the college-code choices of the advanced search and the checks
    the program form makes before it asks for confirmation. */
module ProgramPage {
  import opened Wrappers
  import opened Text
  import opened Sequences
  import opened Sorting
  import opened Paging
  import Session

  /** A row of `programs` as the page receives it.  `createdOn` is
      `created_on` read as a time: None when it is missing or not a date. */
  datatype Program = Program(
    collegecode: Option<string>,
    programcode: Option<string>,
    programname: Option<string>,
    createdOn: Option<int>)

  datatype SortKey = CollegeCodeKey | ProgramCodeKey | ProgramNameKey
  datatype Direction = Asc | Desc
  /** `sortConfig`: no key means newest first. */
  datatype SortConfig = SortConfig(key: Option<SortKey>, direction: Direction)

  const InitialSort := SortConfig(None, Asc)

  /** A date input of the advanced search: empty, a value that does not parse
      to a time, or the time it stands for (the start or the end of that day,
      as the page sets the hours). */
  datatype DateBound = NoBound | Unparseable | At(time: int)

  datatype Filters = Filters(collegeCode: string, start: DateBound, end: DateBound)

  /** `createEmptyFilters()`. */
  const EmptyFilters := Filters("", NoBound, NoBound)

  /** `field?.toLowerCase() || ''`: a null field reads as the empty string. */
  function FieldText(field: Option<string>): string {
    Lower(field.GetOr(""))
  }

  // ---------------------------------------------------------------------
  // The keyword filter.

  /** Whether a program matches the (trimmed, lower-cased) query in the chosen
      field; any value other than the three column names searches all three. */
  predicate MatchesQuery(p: Program, query: string, field: string) {
    var college, code, name := FieldText(p.collegecode), FieldText(p.programcode), FieldText(p.programname);
    if field == "collegecode" then Contains(college, query)
    else if field == "programcode" then Contains(code, query)
    else if field == "programname" then Contains(name, query)
    else Contains(college, query) || Contains(code, query) || Contains(name, query)
  }

  /** The keyword step: skipped when the term is only white space. */
  predicate PassesText(p: Program, term: string, field: string) {
    AllSpace(term) || MatchesQuery(p, Lower(Trim(term)), field)
  }

  function TextFilter(ps: seq<Program>, term: string, field: string): (r: seq<Program>)
    ensures IsSubsequence(r, ps)
    ensures forall p :: p in r <==> p in ps && PassesText(p, term, field)
    ensures AllSpace(term) ==> r == ps
  {
    if Trim(term) == [] then
      SubsequenceReflexive(ps);
      ps
    else
      Filter(ps, (p: Program) => MatchesQuery(p, Lower(Trim(term)), field))
  }

  // ---------------------------------------------------------------------
  // The advanced-search filters.

  /** A set start bound keeps rows with a time at or after it; a row without a
      time, or a bound that is not a date, keeps nothing. */
  predicate PassesStart(p: Program, start: DateBound) {
    match start
    case NoBound => true
    case Unparseable => false
    case At(t) => p.createdOn.Some? && p.createdOn.value >= t
  }

  predicate PassesEnd(p: Program, end: DateBound) {
    match end
    case NoBound => true
    case Unparseable => false
    case At(t) => p.createdOn.Some? && p.createdOn.value <= t
  }

  /** An empty college code keeps every row; otherwise the code must be equal,
      and a null college code is never equal. */
  predicate PassesCollege(p: Program, code: string) {
    code == "" || p.collegecode == Some(code)
  }

  function StartFilter(ps: seq<Program>, start: DateBound): (r: seq<Program>)
    ensures IsSubsequence(r, ps)
    ensures forall p :: p in r <==> p in ps && PassesStart(p, start)
  {
    if start.NoBound? then
      SubsequenceReflexive(ps);
      ps
    else
      Filter(ps, (p: Program) => PassesStart(p, start))
  }

  function EndFilter(ps: seq<Program>, end: DateBound): (r: seq<Program>)
    ensures IsSubsequence(r, ps)
    ensures forall p :: p in r <==> p in ps && PassesEnd(p, end)
  {
    if end.NoBound? then
      SubsequenceReflexive(ps);
      ps
    else
      Filter(ps, (p: Program) => PassesEnd(p, end))
  }

  function CollegeFilter(ps: seq<Program>, code: string): (r: seq<Program>)
    ensures IsSubsequence(r, ps)
    ensures forall p :: p in r <==> p in ps && PassesCollege(p, code)
  {
    if code == "" then
      SubsequenceReflexive(ps);
      ps
    else
      Filter(ps, (p: Program) => p.collegecode == Some(code))
  }

  /** Every filter of the page at once. */
  predicate Kept(p: Program, term: string, field: string, f: Filters) {
    PassesText(p, term, field) && PassesStart(p, f.start) && PassesEnd(p, f.end) && PassesCollege(p, f.collegeCode)
  }

  /** The rows the filters keep, in the order they were loaded. */
  function Selected(ps: seq<Program>, term: string, field: string, f: Filters): (r: seq<Program>)
    ensures IsSubsequence(r, ps)
    ensures forall p :: p in r <==> p in ps && Kept(p, term, field, f)
  {
    var t := TextFilter(ps, term, field);
    var s := StartFilter(t, f.start);
    var e := EndFilter(s, f.end);
    var c := CollegeFilter(e, f.collegeCode);
    SubsequenceTransitive(s, t, ps);
    SubsequenceTransitive(e, s, ps);
    SubsequenceTransitive(c, e, ps);
    c
  }

  // ---------------------------------------------------------------------
  // The sort.

  /** `getCreatedOnTime`: a missing or unparseable time counts as 0. */
  function CreatedTime(p: Program): int {
    p.createdOn.GetOr(0)
  }

  /** `(a?.[key] ?? '').toString().toLowerCase()`. */
  function KeyText(p: Program, key: SortKey): string {
    match key
    case CollegeCodeKey => FieldText(p.collegecode)
    case ProgramCodeKey => FieldText(p.programcode)
    case ProgramNameKey => FieldText(p.programname)
  }

  /** `a` may stay before `b` under the comparator of `sortConfig`. */
  predicate Precedes(c: SortConfig, a: Program, b: Program) {
    match c.key
    case None => CreatedTime(a) >= CreatedTime(b)
    case Some(k) =>
      if c.direction == Asc then StrLe(KeyText(a, k), KeyText(b, k))
      else StrLe(KeyText(b, k), KeyText(a, k))
  }

  function Order(c: SortConfig): (Program, Program) -> bool {
    (a: Program, b: Program) => Precedes(c, a, b)
  }

  lemma OrderIsTotalPreorder(c: SortConfig)
    ensures TotalPreorder(Order(c))
  {
    forall a: Program, b: Program ensures Precedes(c, a, b) || Precedes(c, b, a) {
      if c.key.Some? {
        StrLeTotal(KeyText(a, c.key.value), KeyText(b, c.key.value));
      }
    }
    forall a: Program, b: Program, d: Program | Precedes(c, a, b) && Precedes(c, b, d)
      ensures Precedes(c, a, d)
    {
      if c.key.Some? {
        var k := c.key.value;
        if c.direction == Asc {
          StrLeTransitive(KeyText(a, k), KeyText(b, k), KeyText(d, k));
        } else {
          StrLeTransitive(KeyText(d, k), KeyText(b, k), KeyText(a, k));
        }
      }
    }
  }

  /** `sortByCreatedOnDesc`, which the page applies to every load. */
  function SortByCreatedOnDesc(ps: seq<Program>): (r: seq<Program>)
    ensures multiset(r) == multiset(ps)
  {
    SortBy(ps, Order(InitialSort))
  }

  lemma SortByCreatedOnDescOrdered(ps: seq<Program>)
    ensures forall i, j :: 0 <= i < j < |SortByCreatedOnDesc(ps)| ==>
      CreatedTime(SortByCreatedOnDesc(ps)[i]) >= CreatedTime(SortByCreatedOnDesc(ps)[j])
  {
    OrderIsTotalPreorder(InitialSort);
    SortBySorted(ps, Order(InitialSort));
  }

  /** The `filteredPrograms` memo. */
  function FilteredPrograms(ps: seq<Program>, term: string, field: string, f: Filters, c: SortConfig): (r: seq<Program>)
    ensures multiset(r) == multiset(Selected(ps, term, field, f))
  {
    SortBy(Selected(ps, term, field, f), Order(c))
  }

  /** What the page shows is the loaded programs the filters keep, each as
      often as it was loaded, arranged by the sort configuration. */
  lemma FilteredProgramsSpec(ps: seq<Program>, term: string, field: string, f: Filters, c: SortConfig)
    ensures var r := FilteredPrograms(ps, term, field, f, c);
      && multiset(r) == multiset(Selected(ps, term, field, f))
      && multiset(r) <= multiset(ps)
      && (forall p :: p in r <==> p in ps && Kept(p, term, field, f))
      && (forall i, j :: 0 <= i < j < |r| ==> Precedes(c, r[i], r[j]))
  {
    var sel := Selected(ps, term, field, f);
    var r := FilteredPrograms(ps, term, field, f, c);
    OrderIsTotalPreorder(c);
    SortBySorted(sel, Order(c));
    SubsequenceSubMultiset(sel, ps);
    forall p ensures p in r <==> p in sel {
      assert p in r <==> p in multiset(r);
      assert p in sel <==> p in multiset(sel);
    }
  }

  lemma {:induction false} SubsequenceSubMultiset(a: seq<Program>, b: seq<Program>)
    requires IsSubsequence(a, b)
    ensures multiset(a) <= multiset(b)
    decreases |b|
  {
    if a != [] {
      assert b == [b[0]] + b[1..];
      if a[0] == b[0] && IsSubsequence(a[1..], b[1..]) {
        SubsequenceSubMultiset(a[1..], b[1..]);
        assert a == [a[0]] + a[1..];
      } else {
        SubsequenceSubMultiset(a, b[1..]);
      }
    }
  }

  // ---------------------------------------------------------------------
  // Pagination and the sort toggles.

  /** `Math.max(1, Math.ceil(n / rowsPerPage))`. */
  function TotalPages(n: nat): (r: nat)
    ensures r >= 1
    ensures r * RowsPerPage >= n
    ensures n > 0 ==> (r - 1) * RowsPerPage < n
    ensures n <= RowsPerPage ==> r == 1
  {
    Max(1, CeilDiv(n, RowsPerPage))
  }

  /** `Math.min(currentPage, totalPages)`. */
  function SafePage(current: int, total: int): int {
    Min(current, total)
  }

  /** `currentPrograms`: the slice for the clamped page. */
  function CurrentPrograms(filtered: seq<Program>, currentPage: int): seq<Program> {
    PageSlice(filtered, SafePage(currentPage, TotalPages(|filtered|)))
  }

  /** From page 1 on, the page shown lies between 1 and the last page, holds at
      most ten rows, is the run of rows that page stands for, and is empty only
      when nothing passed the filters. */
  lemma CurrentProgramsShape(filtered: seq<Program>, currentPage: int)
    requires currentPage >= 1
    ensures var safe := SafePage(currentPage, TotalPages(|filtered|));
      && 1 <= safe <= TotalPages(|filtered|)
      && |CurrentPrograms(filtered, currentPage)| <= RowsPerPage
      && CurrentPrograms(filtered, currentPage) == filtered[(safe - 1) * RowsPerPage..Min(safe * RowsPerPage, |filtered|)]
      && (CurrentPrograms(filtered, currentPage) == [] <==> filtered == [])
  {
    var safe := SafePage(currentPage, TotalPages(|filtered|));
    PageSliceBounds(filtered, safe);
    if filtered != [] {
      assert (safe - 1) * RowsPerPage <= (TotalPages(|filtered|) - 1) * RowsPerPage;
    }
  }

  /** A column toggle: the key becomes that column, and the direction turns
      to descending only when the same column was ascending. */
  function ToggleSort(prev: SortConfig, key: SortKey): (r: SortConfig)
    ensures r.key == Some(key)
    ensures r.direction == Desc <==> prev.key == Some(key) && prev.direction == Asc
  {
    var direction := if prev.key == Some(key) && prev.direction == Asc then Desc else Asc;
    SortConfig(Some(key), direction)
  }

  /** Clicking the same column again reverses the order it gives; clicking a
      new column starts ascending. */
  lemma ToggleSortAlternates(prev: SortConfig, key: SortKey, other: SortKey)
    requires other != key
    ensures ToggleSort(ToggleSort(prev, key), key).direction != ToggleSort(prev, key).direction
    ensures ToggleSort(ToggleSort(ToggleSort(prev, key), key), key) == ToggleSort(prev, key)
    ensures ToggleSort(ToggleSort(prev, key), other) == SortConfig(Some(other), Asc)
  {
  }

  /** Reversing the direction of a key sort reverses the order it asks for. */
  lemma DescendingIsReversed(key: SortKey, a: Program, b: Program)
    ensures Precedes(SortConfig(Some(key), Desc), a, b) <==> Precedes(SortConfig(Some(key), Asc), b, a)
  {
  }

  // ---------------------------------------------------------------------
  // The college-code choices of the advanced search.

  /** `program?.collegecode?.trim()` when it is truthy. */
  function ListedCode(p: Program): (r: Option<string>)
    ensures r.Some? ==> r.value != [] && p.collegecode.Some? && r.value == Trim(p.collegecode.value)
    ensures r.None? <==> p.collegecode.None? || AllSpace(p.collegecode.value)
  {
    if p.collegecode.Some? && Trim(p.collegecode.value) != [] then Some(Trim(p.collegecode.value)) else None
  }

  predicate Listed(ps: seq<Program>, code: string) {
    exists p :: p in ps && ListedCode(p) == Some(code)
  }

  lemma ListedExtend(ps: seq<Program>, i: int)
    requires 0 <= i < |ps|
    ensures forall c :: Listed(ps[..i + 1], c) <==> Listed(ps[..i], c) || ListedCode(ps[i]) == Some(c)
  {
    assert ps[..i + 1] == ps[..i] + [ps[i]];
  }

  lemma StrLeIsTotalPreorder()
    ensures TotalPreorder(StrLe)
  {
    forall a: string, b: string ensures StrLe(a, b) || StrLe(b, a) {
      StrLeTotal(a, b);
    }
    forall a: string, b: string, c: string | StrLe(a, b) && StrLe(b, c) ensures StrLe(a, c) {
      StrLeTransitive(a, b, c);
    }
  }

  /** The `collegeCodes` memo: every trimmed, non-empty college code of the
      loaded programs, once each, in ascending order. */
  method CollegeCodes(programs: seq<Program>) returns (codes: seq<string>)
    ensures forall c :: c in codes <==> Listed(programs, c)
    ensures forall c :: c in codes ==> c != []
    ensures forall i, j :: 0 <= i < j < |codes| ==> StrLe(codes[i], codes[j]) && codes[i] != codes[j]
  {
    var unique: seq<string> := [];
    var i := 0;
    while i < |programs|
      invariant 0 <= i <= |programs|
      invariant forall c :: c in unique <==> Listed(programs[..i], c)
      invariant NoDuplicates(unique)
    {
      var code := ListedCode(programs[i]);
      if code.Some? && code.value !in unique {
        unique := unique + [code.value];
      }
      ListedExtend(programs, i);
      i := i + 1;
    }
    assert programs[..i] == programs;
    codes := SortBy(unique, StrLe);
    StrLeIsTotalPreorder();
    SortBySorted(unique, StrLe);
    forall c ensures c in codes <==> c in unique {
      assert c in codes <==> c in multiset(codes);
      assert c in unique <==> c in multiset(unique);
    }
    forall i, j | 0 <= i < j < |codes| ensures codes[i] != codes[j] {
      NoDuplicatesAt(codes, i, j);
    }
  }

  // ---------------------------------------------------------------------
  // The program form's submit.

  const AllFieldsRequired := "All fields are required!"
  const MustBeLoggedIn := "You must be logged in to perform this action."

  datatype ProgramPayload = ProgramPayload(collegecode: string, programcode: string, programname: string, userid: string)

  /** What `handleSubmit` leads to: an alert, or the confirmation dialog for
      an add or an update holding the payload it will send. */
  datatype SubmitOutcome =
    | Alerted(message: string)
    | Confirming(payload: ProgramPayload, update: bool)

  /** `handleSubmit`: the fields are checked before trimming, the payload
      carries the trimmed values and the stored user id. */
  function SubmitProgram(collegeCode: string, programCode: string, programName: string, editing: bool,
                         storage: Session.Storage): (r: SubmitOutcome)
    ensures collegeCode == [] || programCode == [] || programName == [] ==> r == Alerted(AllFieldsRequired)
    ensures collegeCode != [] && programCode != [] && programName != [] && !Present(Session.GetCurrentUserId(storage)) ==>
      r == Alerted(MustBeLoggedIn)
    ensures r.Confirming? <==>
      collegeCode != [] && programCode != [] && programName != [] && Present(Session.GetCurrentUserId(storage))
    ensures r.Confirming? ==>
      && r.update == editing
      && r.payload.userid == storage[Session.UserIdKey] && r.payload.userid != []
      && r.payload.collegecode == Trim(collegeCode)
      && r.payload.programcode == Trim(programCode)
      && r.payload.programname == Trim(programName)
  {
    if collegeCode == [] || programCode == [] || programName == [] then
      Alerted(AllFieldsRequired)
    else
      var userid := Session.GetCurrentUserId(storage);
      if !Present(userid) then Alerted(MustBeLoggedIn)
      else Confirming(ProgramPayload(Trim(collegeCode), Trim(programCode), Trim(programName), userid.value), editing)
  }

  /** The emptiness check runs on the untrimmed fields, so a field of blanks
      passes it and reaches the payload as the empty string. */
  lemma BlankFieldPassesCheck(programCode: string, programName: string, storage: Session.Storage)
    requires programCode != [] && programName != [] && Present(Session.GetCurrentUserId(storage))
    ensures SubmitProgram(" ", programCode, programName, false, storage).Confirming?
    ensures SubmitProgram(" ", programCode, programName, false, storage).payload.collegecode == []
  {
    assert AllSpace(" ");
  }

  // ---------------------------------------------------------------------
  // The directory's state and its handlers.

  /** The list after a delete: the rows with another program code, in order. */
  function RemoveProgram(ps: seq<Program>, code: string): (r: seq<Program>)
    ensures forall p :: p in r <==> p in ps && p.programcode != Some(code)
    ensures IsSubsequence(r, ps)
  {
    Filter(ps, (p: Program) => p.programcode != Some(code))
  }

  /** Deleting the same program twice changes nothing the second time. */
  lemma RemoveProgramIdempotent(ps: seq<Program>, code: string)
    ensures RemoveProgram(RemoveProgram(ps, code), code) == RemoveProgram(ps, code)
  {
    FilterIdempotent(ps, (p: Program) => p.programcode != Some(code));
  }

  class ProgramDirectory {
    var programs: seq<Program>
    var searchField: string
    var searchTerm: string
    var sortConfig: SortConfig
    var currentPage: int
    var activeFilters: Filters

    ghost predicate Valid()
      reads this
    {
      currentPage >= 1
    }

    constructor ()
      ensures Valid()
      ensures programs == [] && searchField == "all" && searchTerm == [] && sortConfig == InitialSort
      ensures currentPage == 1 && activeFilters == EmptyFilters
    {
      programs, searchField, searchTerm := [], "all", [];
      sortConfig, currentPage, activeFilters := InitialSort, 1, EmptyFilters;
    }

    function Filtered(): seq<Program>
      reads this
    {
      FilteredPrograms(programs, searchTerm, searchField, activeFilters, sortConfig)
    }

    function LastPage(): nat
      reads this
    {
      TotalPages(|Filtered()|)
    }

    /** The rows on screen. */
    function Visible(): seq<Program>
      reads this
    {
      CurrentPrograms(Filtered(), currentPage)
    }

    /** The load effect: the fetched rows, newest first. */
    method Loaded(data: seq<Program>)
      requires Valid()
      modifies this
      ensures Valid()
      ensures programs == SortByCreatedOnDesc(data)
      ensures searchField == old(searchField) && searchTerm == old(searchTerm) && sortConfig == old(sortConfig)
      ensures currentPage == old(currentPage) && activeFilters == old(activeFilters)
    {
      programs := SortByCreatedOnDesc(data);
    }

    /** Typing in the search box; the reset effect then returns to page 1. */
    method Search(keyword: string)
      requires Valid()
      modifies this
      ensures Valid()
      ensures searchTerm == keyword && currentPage == 1
      ensures programs == old(programs) && searchField == old(searchField) && sortConfig == old(sortConfig)
      ensures activeFilters == old(activeFilters)
    {
      searchTerm := keyword;
      currentPage := 1;
    }

    /** Choosing the search field; the reset effect returns to page 1. */
    method ChooseSearchField(field: string)
      requires Valid()
      modifies this
      ensures Valid()
      ensures searchField == field && currentPage == 1
      ensures programs == old(programs) && searchTerm == old(searchTerm) && sortConfig == old(sortConfig)
      ensures activeFilters == old(activeFilters)
    {
      searchField := field;
      currentPage := 1;
    }

    /** `handleApplyFilters` (the Clear button applies `EmptyFilters`); the
        reset effect returns to page 1. */
    method ApplyFilters(filters: Filters)
      requires Valid()
      modifies this
      ensures Valid()
      ensures activeFilters == filters && currentPage == 1
      ensures programs == old(programs) && searchTerm == old(searchTerm) && searchField == old(searchField)
      ensures sortConfig == old(sortConfig)
    {
      activeFilters := filters;
      currentPage := 1;
    }

    /** `toggleSortCollegeCode`, `toggleSortProgramCode`, `toggleSortProgramName`. */
    method ToggleSortBy(key: SortKey)
      requires Valid()
      modifies this
      ensures Valid()
      ensures sortConfig == ToggleSort(old(sortConfig), key)
      ensures programs == old(programs) && searchTerm == old(searchTerm) && searchField == old(searchField)
      ensures currentPage == old(currentPage) && activeFilters == old(activeFilters)
    {
      sortConfig := ToggleSort(sortConfig, key);
    }

    /** The Prev button. */
    method Prev()
      requires Valid()
      modifies this
      ensures Valid()
      ensures currentPage == PrevPage(old(currentPage)) && currentPage <= old(currentPage)
      ensures programs == old(programs) && searchTerm == old(searchTerm) && searchField == old(searchField)
      ensures sortConfig == old(sortConfig) && activeFilters == old(activeFilters)
    {
      currentPage := PrevPage(currentPage);
    }

    /** The Next button: it stops at the last page. */
    method Next()
      requires Valid()
      modifies this
      ensures Valid()
      ensures currentPage == NextPage(old(currentPage), old(LastPage()))
      ensures old(currentPage) <= old(LastPage()) ==> currentPage <= LastPage()
      ensures programs == old(programs) && searchTerm == old(searchTerm) && searchField == old(searchField)
      ensures sortConfig == old(sortConfig) && activeFilters == old(activeFilters)
    {
      currentPage := NextPage(currentPage, LastPage());
    }

    /** The clamping effect: a page past the last one moves back to it. */
    method ClampPage()
      requires Valid()
      modifies this
      ensures Valid()
      ensures currentPage == Min(old(currentPage), LastPage())
      ensures currentPage <= LastPage()
      ensures programs == old(programs) && searchTerm == old(searchTerm) && searchField == old(searchField)
      ensures sortConfig == old(sortConfig) && activeFilters == old(activeFilters)
    {
      if currentPage > LastPage() {
        currentPage := LastPage();
      }
    }

    /** `handleDelete`: with a stored user id and no error from the delete,
        every loaded program with that code leaves the list, in order. */
    method HandleDelete(programCode: string, storage: Session.Storage, result: Attempt)
      requires Valid()
      modifies this
      ensures Valid()
      ensures Present(Session.GetCurrentUserId(storage)) && result.Succeeds? ==>
        programs == RemoveProgram(old(programs), programCode)
      ensures !Present(Session.GetCurrentUserId(storage)) || result.Raises? ==> programs == old(programs)
      ensures searchTerm == old(searchTerm) && searchField == old(searchField) && sortConfig == old(sortConfig)
      ensures currentPage == old(currentPage) && activeFilters == old(activeFilters)
    {
      if !Present(Session.GetCurrentUserId(storage)) {
        return;
      }
      if result.Raises? {
        return;
      }
      programs := RemoveProgram(programs, programCode);
    }
  }
}
