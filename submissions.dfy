/**
 * The contact-submission triage page: the records `/api/contact-submissions`
 * returns, split into the active list and the archives, the rule that hides a
 * record another user has taken charge of, the per-column comparator, the
 * counters above the table, the search box and the filter form, the labels,
 * the action buttons of the detail modal and its list of internal notes, and
 * the page state itself (the active records, the array on display, the page,
 * the sort and the filter form).
 */
module Submissions {
  import opened Wrappers
  import opened Text
  import opened TableView

  /** Rows per page of the submissions table. */
  const PER_PAGE: nat := 15

  /**
   * One record of `/api/contact-submissions`. `processedBy` is the id of the
   * user who took charge of it; dates are epoch milliseconds; `None` stands
   * for `null`.
   */
  datatype Submission = Submission(
    id: int,
    formType: string,
    nom: string,
    email: string,
    telephone: Option<string>,
    status: string,
    processedBy: Option<int>,
    handlerName: Option<string>,
    submittedAt: Option<int>,
    notes: Option<string>)

  /** `new Date(submitted_at)` and `new Date(submitted_at || 0)`: a `null` date is the epoch. */
  function SubmittedMs(s: Submission): int {
    s.submittedAt.GetOr(0)
  }

  // ---------------------------------------------------------------------------
  // Loading: active list, archives, and who may see a record
  // ---------------------------------------------------------------------------

  predicate IsArchived(s: Submission) {
    s.status == "archived"
  }

  predicate IsActive(s: Submission) {
    s.status != "archived"
  }

  /** The active list: `status !== 'archived'`. */
  function Active(all: seq<Submission>): seq<Submission> {
    Filter(all, IsActive)
  }

  /** The archives: `status === 'archived'`. */
  function Archived(all: seq<Submission>): seq<Submission> {
    Filter(all, IsArchived)
  }

  /** Loading splits the records in two lists that hold every record once between them and share none. */
  lemma LoadPartitions(all: seq<Submission>)
    ensures multiset(Active(all)) + multiset(Archived(all)) == multiset(all)
    ensures |Active(all)| + |Archived(all)| == |all|
    ensures forall s :: s in Active(all) <==> s in all && !IsArchived(s)
    ensures forall s :: s in Archived(all) <==> s in all && IsArchived(s)
  {
    FilterPartition(all, IsActive, IsArchived);
    FilterMembers(all, IsActive);
    FilterMembers(all, IsArchived);
  }

  /** `processed_by` is truthy: someone took charge (a `null` or `0` id is nobody). */
  predicate Handled(s: Submission) {
    s.processedBy.Some? && s.processedBy.value != 0
  }

  /** `s.processed_by && s.processed_by !== me`: another user has taken charge of the record. */
  predicate HeldByOther(s: Submission, me: int) {
    Handled(s) && s.processedBy.value != me
  }

  /** The test the page applies before showing any record to user `me`. */
  function VisibleTest(me: int): Submission -> bool {
    (s: Submission) => !HeldByOther(s, me)
  }

  /** The records the table starts from after a load or a reset. */
  function VisibleRows(data: seq<Submission>, me: int): seq<Submission> {
    Filter(data, VisibleTest(me))
  }

  /** A record is shown after a load exactly when it is active and nobody else holds it. */
  lemma VisibleRowsMembers(all: seq<Submission>, me: int, s: Submission)
    ensures s in VisibleRows(Active(all), me) <==> s in all && !IsArchived(s) && !HeldByOther(s, me)
  {
    LoadPartitions(all);
    FilterMembers(Active(all), VisibleTest(me));
  }

  // ---------------------------------------------------------------------------
  // Counters
  // ---------------------------------------------------------------------------

  /** The three counters above the table. */
  datatype Stats = Stats(pending: nat, processed: nat, archived: nat)

  function StatusIs(status: string): Submission -> bool {
    (s: Submission) => s.status == status
  }

  /** `rows.filter(s => s.status === status).length`. */
  function CountStatus(rows: seq<Submission>, status: string): nat {
    |Filter(rows, StatusIs(status))|
  }

  /** `updateSubmissionsStats`: pending and processed among the active records, and the number of archives. */
  function StatsOf(data: seq<Submission>, archived: seq<Submission>): Stats {
    Stats(CountStatus(data, "pending"), CountStatus(data, "processed"), |archived|)
  }

  /** The counters never count a record twice: together they are at most the number of records loaded. */
  lemma StatsBounded(all: seq<Submission>)
    ensures var st := StatsOf(Active(all), Archived(all));
      st.pending + st.processed + st.archived <= |all|
  {
    var active := Active(all);
    var notPending := (s: Submission) => s.status != "pending";
    FilterPartition(active, StatusIs("pending"), notPending);
    FilterStage(active, notPending, StatusIs("processed"), StatusIs("processed"));
    LoadPartitions(all);
  }

  // ---------------------------------------------------------------------------
  // The comparator of sortSubmissionsData
  // ---------------------------------------------------------------------------

  /** The page's initial sort: newest first. */
  const DEFAULT_SORT: SortState := SortState("date", Desc)

  /** `handler_name || 'zzz'`: records nobody handles sort as 'zzz', after the named ones. */
  function HandlerKey(s: Submission): string {
    if s.handlerName.Some? && s.handlerName.value != "" then s.handlerName.value else "zzz"
  }

  predicate IsTextColumn(column: string) {
    column == "type" || column == "name" || column == "email" || column == "status" || column == "handler"
  }

  /** The text a column sorts on: lower-cased type, name and email; status and handler as they are. */
  function TextKey(s: Submission, column: string): string {
    if column == "type" then Lower(s.formType)
    else if column == "name" then Lower(s.nom)
    else if column == "email" then Lower(s.email)
    else if column == "status" then s.status
    else HandlerKey(s)
  }

  /**
   * The comparator the table sorts with: the submission date as a number,
   * the text of a text column, in the chosen direction; an unknown column
   * compares everything as equal.
   */
  function Compare(a: Submission, b: Submission, s: SortState): int {
    if s.column == "date" then
      Ternary(SubmittedMs(a) < SubmittedMs(b), SubmittedMs(a) > SubmittedMs(b), s.direction)
    else if IsTextColumn(s.column) then
      var x, y := TextKey(a, s.column), TextKey(b, s.column);
      Ternary(StrLess(x, y), StrLess(y, x), s.direction)
    else 0
  }

  /** "`a` sorts before `b`": the comparator is negative. */
  function Less(s: SortState): (Submission, Submission) -> bool {
    (a: Submission, b: Submission) => Compare(a, b, s) < 0
  }

  /** Swapping the records negates the answer, which stays in -1..1. */
  lemma CompareAntisymmetric(a: Submission, b: Submission, s: SortState)
    ensures Compare(a, b, s) == -Compare(b, a, s)
    ensures -1 <= Compare(a, b, s) <= 1
  {
    if IsTextColumn(s.column) {
      StrLessAsymmetric(TextKey(a, s.column), TextKey(b, s.column));
    }
  }

  /** "Not before" is transitive: the comparator never contradicts itself across three records. */
  lemma NotBeforeTransitive(x: Submission, y: Submission, z: Submission, s: SortState)
    requires Compare(x, y, s) >= 0 && Compare(y, z, s) >= 0
    ensures Compare(x, z, s) >= 0
  {
    if s.column != "date" && IsTextColumn(s.column) {
      TextNotBeforeTransitive(TextKey(x, s.column), TextKey(y, s.column), TextKey(z, s.column), s.direction);
    }
  }

  /** Every column's comparator is a strict weak order, so the in-place sort is well defined for it. */
  lemma LessIsStrictWeak(s: SortState)
    ensures StrictWeakOrder(Less(s))
  {
    forall x, y | Less(s)(x, y) ensures !Less(s)(y, x) {
      CompareAntisymmetric(x, y, s);
    }
    forall x, y, z | !Less(s)(x, y) && !Less(s)(y, z) ensures !Less(s)(x, z) {
      NotBeforeTransitive(x, y, z, s);
    }
  }

  /** Under the initial sort, a later submission comes before an earlier one. */
  lemma NewestFirst(a: Submission, b: Submission)
    ensures Less(DEFAULT_SORT)(a, b) <==> SubmittedMs(a) > SubmittedMs(b)
  {
  }

  /** Sorting by handler, ascending: a record nobody handles comes after one whose handler name sorts before 'zzz'. */
  lemma UnhandledLast(a: Submission, b: Submission)
    requires a.handlerName.None? || a.handlerName == Some("")
    requires b.handlerName.Some? && b.handlerName.value != "" && StrLess(b.handlerName.value, "zzz")
    ensures Less(SortState("handler", Asc))(b, a)
    ensures !Less(SortState("handler", Asc))(a, b)
  {
    StrLessAsymmetric(b.handlerName.value, "zzz");
  }

  // ---------------------------------------------------------------------------
  // The filter form
  // ---------------------------------------------------------------------------

  /** The filter form: type, status, submitted after, submitted before, handled ('yes', 'no', 'me'); "" is unset. */
  datatype Filters = Filters(formType: string, status: string, dateAfter: DateBound, dateBefore: DateBound, handled: string)

  const NoFilters: Filters := Filters("", "", Unset, Unset, "")

  predicate TypeOk(s: Submission, formType: string) {
    formType == "" || s.formType == formType
  }

  predicate StatusOk(s: Submission, status: string) {
    status == "" || s.status == status
  }

  /** `if (subDate < filterDate) return false`: an unreadable filter date is NaN, the test is false, and the record stays. */
  predicate AfterOk(s: Submission, after: DateBound) {
    match after
    case At(t) => !(SubmittedMs(s) < t)
    case _ => true
  }

  /** `if (subDate > filterDate) return false`, with the same reading of an unreadable date. */
  predicate BeforeOk(s: Submission, before: DateBound) {
    match before
    case At(t) => !(SubmittedMs(s) > t)
    case _ => true
  }

  /** 'yes' needs someone in charge, 'no' nobody, 'me' the current user (`processed_by !== me` drops the rest). */
  predicate HandledOk(s: Submission, handled: string, me: int) {
    && (handled == "yes" ==> Handled(s))
    && (handled == "no" ==> !Handled(s))
    && (handled == "me" ==> s.processedBy == Some(me))
  }

  /** `applySubmissionFilters`' test: visible to `me`, then every set filter. */
  predicate Passes(s: Submission, f: Filters, me: int) {
    && !HeldByOther(s, me)
    && TypeOk(s, f.formType)
    && StatusOk(s, f.status)
    && AfterOk(s, f.dateAfter)
    && BeforeOk(s, f.dateBefore)
    && HandledOk(s, f.handled, me)
  }

  function FilterTest(f: Filters, me: int): Submission -> bool {
    (s: Submission) => Passes(s, f, me)
  }

  /** What the filter form leaves of the active records. */
  function Filtered(data: seq<Submission>, f: Filters, me: int): seq<Submission> {
    Filter(data, FilterTest(f, me))
  }

  /** A record is kept exactly when it is active, visible, and passes every filter that is set. */
  lemma FilteredMembers(data: seq<Submission>, f: Filters, me: int, s: Submission)
    ensures s in Filtered(data, f, me) <==>
      && s in data && !HeldByOther(s, me)
      && (f.formType != "" ==> s.formType == f.formType)
      && (f.status != "" ==> s.status == f.status)
      && (f.dateAfter.At? ==> SubmittedMs(s) >= f.dateAfter.ms)
      && (f.dateBefore.At? ==> SubmittedMs(s) <= f.dateBefore.ms)
      && HandledOk(s, f.handled, me)
  {
    FilterMembers(data, FilterTest(f, me));
    assert FilterTest(f, me)(s) == Passes(s, f, me);
  }

  /** An empty form keeps what visibility alone keeps: resetting the form is applying an empty one. */
  lemma NoFiltersShowsVisible(data: seq<Submission>, me: int)
    ensures Filtered(data, NoFilters, me) == VisibleRows(data, me)
  {
    FilterExt(data, FilterTest(NoFilters, me), VisibleTest(me));
  }

  /** A date the browser cannot read filters nothing out, as if the field were empty. */
  lemma UnreadableDateIgnored(data: seq<Submission>, f: Filters, me: int)
    ensures Filtered(data, f.(dateAfter := Unparsable), me) == Filtered(data, f.(dateAfter := Unset), me)
    ensures Filtered(data, f.(dateBefore := Unparsable), me) == Filtered(data, f.(dateBefore := Unset), me)
  {
    FilterExt(data, FilterTest(f.(dateAfter := Unparsable), me), FilterTest(f.(dateAfter := Unset), me));
    FilterExt(data, FilterTest(f.(dateBefore := Unparsable), me), FilterTest(f.(dateBefore := Unset), me));
  }

  // ---------------------------------------------------------------------------
  // Search
  // ---------------------------------------------------------------------------

  /** `searchTerm.toLowerCase().trim()`. */
  function SearchTerm(raw: string): string {
    Trim(Lower(raw))
  }

  /** The lower-cased name or email contains the term, or the phone number, as typed, does. */
  predicate Matches(s: Submission, term: string) {
    || Includes(Lower(s.nom), term)
    || Includes(Lower(s.email), term)
    || (s.telephone.Some? && s.telephone.value != "" && Includes(s.telephone.value, term))
  }

  function SearchTest(term: string, me: int): Submission -> bool {
    (s: Submission) => !HeldByOther(s, me) && Matches(s, term)
  }

  /** `handleSubmissionSearch`: an empty term falls back to the filter form; any other term ignores the form. */
  function Searched(data: seq<Submission>, raw: string, f: Filters, me: int): seq<Submission> {
    var term := SearchTerm(raw);
    if term == [] then Filtered(data, f, me) else Filter(data, SearchTest(term, me))
  }

  /** A non-empty search keeps exactly the visible active records that match, whatever the form holds. */
  lemma SearchedMembers(data: seq<Submission>, raw: string, f: Filters, me: int, s: Submission)
    requires SearchTerm(raw) != []
    ensures s in Searched(data, raw, f, me) <==> s in data && !HeldByOther(s, me) && Matches(s, SearchTerm(raw))
    ensures Searched(data, raw, f, me) == Searched(data, raw, NoFilters, me)
  {
    FilterMembers(data, SearchTest(SearchTerm(raw), me));
    assert SearchTest(SearchTerm(raw), me)(s) == (!HeldByOther(s, me) && Matches(s, SearchTerm(raw)));
  }

  /** Whatever the search box and the form hold, no record another user holds is listed. */
  lemma SearchedNeverHeldByOther(data: seq<Submission>, raw: string, f: Filters, me: int, s: Submission)
    requires s in Searched(data, raw, f, me)
    ensures s in data && !HeldByOther(s, me)
  {
    if SearchTerm(raw) == [] {
      FilteredMembers(data, f, me, s);
    } else {
      SearchedMembers(data, raw, f, me, s);
    }
  }

  // ---------------------------------------------------------------------------
  // Labels
  // ---------------------------------------------------------------------------

  /** `getTypeLabel`: the French name of the three known forms, any other value as it is. */
  function TypeLabel(t: string): (r: string)
    ensures r == t <==> t != "recrutement" && t != "plainte" && t != "rdv"
  {
    if t == "recrutement" then "Recrutement"
    else if t == "plainte" then "Plainte"
    else if t == "rdv" then "Rendez-vous"
    else t
  }

  /** `getStatusLabel`: the French name of the three known statuses, any other value as it is. */
  function StatusLabel(status: string): (r: string)
    ensures r == status <==> status != "pending" && status != "processed" && status != "archived"
  {
    if status == "pending" then "En attente"
    else if status == "processed" then "Traité"
    else if status == "archived" then "Archivé"
    else status
  }

  /** The labels tell the known values apart: different known types, or statuses, get different labels. */
  lemma LabelsDistinct(a: string, b: string)
    ensures TypeLabel(a) == TypeLabel(b) && a != b ==> TypeLabel(a) == a || TypeLabel(b) == b
    ensures StatusLabel(a) == StatusLabel(b) && a != b ==> StatusLabel(a) == a || StatusLabel(b) == b
  {
  }

  // ---------------------------------------------------------------------------
  // The detail modal: action buttons and notes
  // ---------------------------------------------------------------------------

  /** What a button of the modal shows: displayed or not, enabled or not, and its text. */
  datatype ButtonState = ButtonState(visible: bool, enabled: bool, caption: string)

  const ALREADY_HANDLED: string := "Déjà pris en charge"

  /** The take-charge button as the page first shows it, with its text from the page markup. */
  function FreshButton(defaultLabel: string): ButtonState {
    ButtonState(true, true, defaultLabel)
  }

  /**
   * The take-charge button after `displaySubmissionDetails`, as the source
   * writes it: each branch sets only some of the fields, so the rest keep
   * what the previously opened record left.
   */
  function TakeChargeAsWritten(prev: ButtonState, s: Submission, me: int): ButtonState {
    if s.processedBy == Some(me) then prev.(visible := false)
    else if Handled(s) then prev.(enabled := false, caption := ALREADY_HANDLED)
    else prev.(visible := true, enabled := true)
  }

  /** Finding: after a record someone else holds, an unassigned record gets an enabled button that still says it is taken. */
  lemma TakeChargeLabelSticks(prev: ButtonState, held: Submission, free: Submission, me: int)
    requires HeldByOther(held, me) && !Handled(free) && free.processedBy != Some(me)
    ensures var b := TakeChargeAsWritten(TakeChargeAsWritten(prev, held, me), free, me);
      b.visible && b.enabled && b.caption == ALREADY_HANDLED
  {
  }

  /**
   * The take-charge button with every field set on every branch: hidden on
   * the user's own records, shown disabled with "already taken" on a record
   * someone else holds, shown enabled with its own text otherwise.
   */
  function TakeCharge(s: Submission, me: int, defaultLabel: string): (b: ButtonState)
    ensures !b.visible <==> s.processedBy == Some(me)
    ensures b.visible ==> (b.enabled <==> !Handled(s))
    ensures b.visible ==> b.caption == if Handled(s) then ALREADY_HANDLED else defaultLabel
  {
    if s.processedBy == Some(me) then ButtonState(false, true, defaultLabel)
    else if Handled(s) then ButtonState(true, false, ALREADY_HANDLED)
    else ButtonState(true, true, defaultLabel)
  }

  /** The corrected button does on every opening what the source does on the first one, whatever was opened before. */
  lemma TakeChargeIsFirstOpening(s: Submission, me: int, defaultLabel: string)
    ensures TakeCharge(s, me, defaultLabel) == TakeChargeAsWritten(FreshButton(defaultLabel), s, me)
  {
  }

  /** Which of the archive and delete buttons the modal shows: exactly one, delete for an archived record. */
  function ArchiveDelete(s: Submission): (r: (bool, bool))
    ensures r.0 != r.1
  {
    if s.status == "archived" then (false, true) else (true, false)
  }

  /** Records opened from the archives offer delete; records opened from the active list offer archive. */
  lemma ArchiveDeleteByList(all: seq<Submission>, s: Submission)
    requires s in all
    ensures s in Archived(all) ==> ArchiveDelete(s) == (false, true)
    ensures s in Active(all) ==> ArchiveDelete(s) == (true, false)
  {
    LoadPartitions(all);
  }

  /** The separator between two internal notes. */
  const NOTE_SEPARATOR: string := "\n---\n"

  predicate NotBlank(n: string) {
    Trim(n) != ""
  }

  /**
   * `displayNotes(submission.notes || '')`: nothing for missing or blank
   * notes, otherwise the separated pieces that are not blank, in order.
   */
  function NoteItems(notes: Option<string>): seq<string> {
    var text := notes.GetOr("");
    if text == "" || Trim(text) == "" then [] else Filter(Split(text, NOTE_SEPARATOR), NotBlank)
  }

  /** Missing or blank notes show no item; every item shown is a non-blank note without a separator inside. */
  lemma NoteItemsShape(notes: Option<string>)
    ensures notes.None? || IsBlank(notes.value) ==> NoteItems(notes) == []
    ensures forall n :: n in NoteItems(notes) ==> !IsBlank(n) && !Includes(n, NOTE_SEPARATOR)
  {
    var text := notes.GetOr("");
    TrimEmptyIffBlank(text);
    if !(text == "" || Trim(text) == "") {
      var parts := Split(text, NOTE_SEPARATOR);
      assert NoteItems(notes) == Filter(parts, NotBlank);
      NonBlankPiecesShape(parts);
    }
  }

  /** The non-blank pieces of a separated text are non-blank and hold no separator. */
  lemma NonBlankPiecesShape(parts: seq<string>)
    requires forall k :: 0 <= k < |parts| ==> !Includes(parts[k], NOTE_SEPARATOR)
    ensures forall n :: n in Filter(parts, NotBlank) ==> !IsBlank(n) && !Includes(n, NOTE_SEPARATOR)
  {
    FilterMembers(parts, NotBlank);
    forall n | n in Filter(parts, NotBlank) ensures !IsBlank(n) && !Includes(n, NOTE_SEPARATOR) {
      TrimEmptyIffBlank(n);
    }
  }

  /** When no piece is blank, the items joined with the separator give back the stored notes. */
  lemma NoteItemsRejoin(text: string)
    requires !IsBlank(text)
    requires forall k :: 0 <= k < |Split(text, NOTE_SEPARATOR)| ==> !IsBlank(Split(text, NOTE_SEPARATOR)[k])
    ensures Join(NoteItems(Some(text)), NOTE_SEPARATOR) == text
  {
    TrimEmptyIffBlank(text);
    var parts := Split(text, NOTE_SEPARATOR);
    forall n | n in parts ensures NotBlank(n) {
      TrimEmptyIffBlank(n);
    }
    FilterKeepsAll(parts, NotBlank);
    JoinSplit(text, NOTE_SEPARATOR);
  }

  // ---------------------------------------------------------------------------
  // The page
  // ---------------------------------------------------------------------------

  /**
   * The page's state for the signed-in user `me`: the active records, the
   * archives, the array the table displays (filtered, then sorted in place),
   * the current page, the sort and the filter form.
   */
  class Board {
    const me: int
    var data: seq<Submission>
    var archived: seq<Submission>
    var filtered: array<Submission>
    var page: int
    var sort: SortState
    var filters: Filters

    /**
     * The table only holds active records, never one another user holds,
     * always in the order of the current sort, and the page counts from 1.
     */
    ghost predicate Valid()
      reads this, filtered
    {
      && 1 <= page
      && multiset(filtered[..]) <= multiset(data)
      && (forall s :: s in filtered[..] ==> !HeldByOther(s, me))
      && SortedBy(filtered[..], Less(sort))
    }

    /** The page before loading: nothing loaded, page 1, newest first, no filter. */
    constructor(user: int)
      ensures Valid() && fresh(filtered) && me == user
      ensures data == [] && archived == [] && filtered[..] == []
      ensures page == 1 && sort == DEFAULT_SORT && filters == NoFilters
    {
      me := user;
      data := [];
      archived := [];
      filtered := new Submission[0];
      page := 1;
      sort := DEFAULT_SORT;
      filters := NoFilters;
    }

    /** `sortSubmissionsData`: sorts the displayed array in place by the current sort. */
    method SortFiltered()
      modifies filtered
      ensures SortedBy(filtered[..], Less(sort))
      ensures multiset(filtered[..]) == old(multiset(filtered[..]))
    {
      LessIsStrictWeak(sort);
      SortInPlace(filtered, Less(sort));
    }

    /** Puts `rows` on display, sorted; the caller shows that they may all be displayed. */
    method Show(rows: seq<Submission>)
      requires 1 <= page
      requires multiset(rows) <= multiset(data) && forall s :: s in rows ==> !HeldByOther(s, me)
      modifies this
      ensures Valid() && fresh(filtered) && multiset(filtered[..]) == multiset(rows)
      ensures data == old(data) && archived == old(archived) && page == old(page)
      ensures sort == old(sort) && filters == old(filters)
    {
      filtered := ToArray(rows);
      SortFiltered();
      assert forall s :: s in filtered[..] ==> s in multiset(rows);
    }

    /**
     * `loadSubmissionsData` on success: the active records and the archives
     * are replaced, the table shows every active record nobody else holds,
     * sorted; the page and the filter form are kept (the form is not applied).
     */
    method Load(all: seq<Submission>)
      requires 1 <= page
      modifies this
      ensures Valid() && fresh(filtered)
      ensures data == Active(all) && archived == Archived(all)
      ensures multiset(filtered[..]) == multiset(VisibleRows(Active(all), me))
      ensures page == old(page) && sort == old(sort) && filters == old(filters)
    {
      data := Active(all);
      archived := Archived(all);
      FilterOnlyRemoves(data, VisibleTest(me));
      FilterMembers(data, VisibleTest(me));
      Show(VisibleRows(data, me));
    }

    /** The counters above the table. */
    function StatsNow(): Stats
      reads this
    {
      StatsOf(data, archived)
    }

    /** `applySubmissionFilters`: every active record passing the form, sorted. */
    method ApplyFilters()
      requires 1 <= page
      modifies this
      ensures Valid() && fresh(filtered)
      ensures multiset(filtered[..]) == multiset(Filtered(data, filters, me))
      ensures data == old(data) && archived == old(archived) && page == old(page)
      ensures sort == old(sort) && filters == old(filters)
    {
      var rows := Filtered(data, filters, me);
      FilterOnlyRemoves(data, FilterTest(filters, me));
      forall s | s in rows ensures !HeldByOther(s, me) {
        FilteredMembers(data, filters, me, s);
      }
      Show(rows);
    }

    /** `handleSubmissionSearch`: an empty term re-applies the form, any other lists the matching records; page 1. */
    method Search(raw: string)
      requires 1 <= page
      modifies this
      ensures Valid() && fresh(filtered)
      ensures multiset(filtered[..]) == multiset(Searched(data, raw, filters, me))
      ensures page == 1
      ensures data == old(data) && archived == old(archived) && sort == old(sort) && filters == old(filters)
    {
      var term := SearchTerm(raw);
      if term == [] {
        ApplyFilters();
      } else {
        var rows := Filter(data, SearchTest(term, me));
        FilterOnlyRemoves(data, SearchTest(term, me));
        forall s | s in rows ensures !HeldByOther(s, me) {
          SearchedMembers(data, raw, filters, me, s);
        }
        Show(rows);
      }
      page := 1;
    }

    /** The "apply filters" button: stores the form and filters every active record (the search box is not consulted); page 1. */
    method ApplyFilterForm(f: Filters)
      requires 1 <= page
      modifies this
      ensures Valid() && fresh(filtered)
      ensures filters == f && page == 1
      ensures multiset(filtered[..]) == multiset(Filtered(data, f, me))
      ensures data == old(data) && archived == old(archived) && sort == old(sort)
    {
      filters := f;
      ApplyFilters();
      page := 1;
    }

    /** `resetSubmissionFilters`: clears the form and shows every visible active record, sorted; page 1. */
    method ResetFilters()
      requires 1 <= page
      modifies this
      ensures Valid() && fresh(filtered)
      ensures filters == NoFilters && page == 1
      ensures multiset(filtered[..]) == multiset(Filtered(data, NoFilters, me))
      ensures data == old(data) && archived == old(archived) && sort == old(sort)
    {
      filters := NoFilters;
      FilterOnlyRemoves(data, VisibleTest(me));
      FilterMembers(data, VisibleTest(me));
      Show(VisibleRows(data, me));
      NoFiltersShowsVisible(data, me);
      page := 1;
    }

    /** A click on a column header: toggles or moves the sort, then sorts the displayed records again. */
    method HeaderClick(column: string)
      requires Valid()
      modifies this, filtered
      ensures Valid()
      ensures sort == ClickHeader(old(sort), column)
      ensures filtered == old(filtered) && multiset(filtered[..]) == old(multiset(filtered[..]))
      ensures data == old(data) && archived == old(archived) && page == old(page) && filters == old(filters)
    {
      sort := ClickHeader(sort, column);
      ghost var before := filtered[..];
      SortFiltered();
      assert forall s :: s in filtered[..] ==> s in multiset(before);
    }

    /** The number of pages of the displayed records. */
    function TotalPagesNow(): nat
      reads this
    {
      TotalPages(filtered.Length, PER_PAGE)
    }

    /** The "previous" button: one page back unless on the first page. A page inside the table stays inside it. */
    method PrevPage()
      modifies this
      ensures page == if old(page) > 1 then old(page) - 1 else old(page)
      ensures 1 <= old(page) <= Max(1, TotalPagesNow()) ==> 1 <= page <= Max(1, TotalPagesNow())
      ensures data == old(data) && archived == old(archived) && filtered == old(filtered)
      ensures sort == old(sort) && filters == old(filters)
    {
      if page > 1 {
        page := page - 1;
      }
    }

    /** The "next" button: one page on unless on the last page. A page inside the table stays inside it. */
    method NextPage()
      modifies this
      ensures page == if old(page) < TotalPagesNow() then old(page) + 1 else old(page)
      ensures 1 <= old(page) <= Max(1, TotalPagesNow()) ==> 1 <= page <= Max(1, TotalPagesNow())
      ensures data == old(data) && archived == old(archived) && filtered == old(filtered)
      ensures sort == old(sort) && filters == old(filters)
    {
      if page < TotalPages(filtered.Length, PER_PAGE) {
        page := page + 1;
      }
    }

    /** A click on a page-number button. */
    method GoToPage(p: int)
      requires 1 <= p
      modifies this
      ensures page == p
      ensures data == old(data) && archived == old(archived) && filtered == old(filtered)
      ensures sort == old(sort) && filters == old(filters)
    {
      page := p;
    }

    /** The records `displaySubmissionsTable` draws: the slice of the current page. */
    function PageRows(): (r: seq<Submission>)
      requires 1 <= page
      reads this, filtered
      ensures |r| <= PER_PAGE
      ensures forall k :: 0 <= k < |r| ==> 0 <= PageStart(page, PER_PAGE) + k < filtered.Length && r[k] == filtered[PageStart(page, PER_PAGE) + k]
    {
      PageSlice(filtered[..], page, PER_PAGE)
    }

    /**
     * `updateSubmissionsPagination`: the "showing from .. to .. of" numbers,
     * whether "previous" and "next" are disabled, and the page bar.
     */
    method Pagination() returns (from: int, to: int, count: nat, prevDisabled: bool, nextDisabled: bool, items: seq<PageItem>)
      requires 1 <= page
      ensures count == filtered.Length
      ensures (from, to) == ShowingRange(count, page, PER_PAGE)
      ensures 1 <= page <= TotalPagesNow() ==> from == (page - 1) * PER_PAGE + 1 && to - from + 1 == |PageRows()|
      ensures count == 0 ==> from == 0 && to == 0 && items == []
      ensures prevDisabled <==> page == 1
      ensures nextDisabled <==> page == TotalPagesNow() || TotalPagesNow() == 0
      ensures forall i :: PageButton(i) in items <==> 1 <= i <= TotalPagesNow() && ShowsButton(i, page, TotalPagesNow())
      ensures |Filter(items, IsEllipsis)| <= 2
      ensures items == ItemsThrough(TotalPagesNow(), page, TotalPagesNow())
      ensures ButtonsIncreasing(items)
      ensures Ellipsis in items <==>
        exists j :: (j == page - 2 || j == page + 2) && 1 <= j <= TotalPagesNow() && !ShowsButton(j, page, TotalPagesNow())
    {
      count := filtered.Length;
      var total := TotalPages(count, PER_PAGE);
      assert total == TotalPagesNow();
      var range := ShowingRange(count, page, PER_PAGE);
      from, to := range.0, range.1;
      if 1 <= page <= total {
        ShowingMatchesSlice(filtered[..], page, PER_PAGE);
      }
      prevDisabled := page == 1;
      nextDisabled := page == total || total == 0;
      items := PageItems(page, total);
      forall i ensures PageButton(i) in items <==> 1 <= i <= TotalPagesNow() && ShowsButton(i, page, TotalPagesNow()) {
        ButtonIffShown(total, page, total, i);
      }
      AtMostTwoEllipses(total, page, total);
      ItemsInOrder(total, page, total);
      EllipsisIff(total, page, total);
    }
  }
}
