/**
 * The employee roster page: the rows `/api/employees` returns, the
 * per-column comparator the table sorts with, the search box and the filter
 * form, the badge and initials each row shows, the checks before an avatar
 * upload, the ordered checks of the "new agent" form, and the roster state
 * itself (the loaded rows, the array on display, the page and the sort).
 */
module Employees {
  import opened Wrappers
  import opened Text
  import opened TableView
  import DateTime

  /** Rows per page of the roster table. */
  const PER_PAGE: nat := 10

  /** One row of `/api/employees`. Dates are epoch milliseconds; `None` stands for `null`. */
  datatype Employee = Employee(
    id: int,
    name: string,
    email: string,
    rankName: Option<string>,
    rankId: Option<int>,
    hierarchy: int,
    hiredDate: Option<int>,
    lastLogin: Option<int>)

  /** `new Date(hired_date)` and `new Date(hired_date || 0)`: a `null` date is the epoch. */
  function HiredMs(e: Employee): int {
    e.hiredDate.GetOr(0)
  }

  /** `new Date(last_login || 0)`. */
  function LoginMs(e: Employee): int {
    e.lastLogin.GetOr(0)
  }

  // ---------------------------------------------------------------------------
  // The comparator of sortEmployeesData
  // ---------------------------------------------------------------------------

  function CompareNames(a: Employee, b: Employee, d: Direction): int {
    Ternary(StrLess(Lower(a.name), Lower(b.name)), StrLess(Lower(b.name), Lower(a.name)), d)
  }

  /**
   * The comparator the roster sorts with, per column: lower-cased name or
   * email, badge number, hire or last-login date, and for 'rank' the
   * hierarchy level in the chosen direction with the lower-cased name,
   * ascending whatever the direction, between equal levels. An unknown
   * column compares everything as equal. Equal rank levels with equal
   * names compare as 0 here; see `CompareAsWritten` for the source's rule.
   */
  function Compare(a: Employee, b: Employee, s: SortState): int {
    var d := s.direction;
    if s.column == "name" then CompareNames(a, b, d)
    else if s.column == "badge" then Ternary(a.id < b.id, a.id > b.id, d)
    else if s.column == "rank" then
      if a.hierarchy != b.hierarchy then Ternary(a.hierarchy < b.hierarchy, a.hierarchy > b.hierarchy, d)
      else CompareNames(a, b, Asc)
    else if s.column == "email" then
      Ternary(StrLess(Lower(a.email), Lower(b.email)), StrLess(Lower(b.email), Lower(a.email)), d)
    else if s.column == "hired" then Ternary(HiredMs(a) < HiredMs(b), HiredMs(a) > HiredMs(b), d)
    else if s.column == "login" then Ternary(LoginMs(a) < LoginMs(b), LoginMs(a) > LoginMs(b), d)
    else 0
  }

  /** The comparator as the source writes it: between equal rank levels it answers `aName < bName ? -1 : 1`, so 1 for equal names. */
  function CompareAsWritten(a: Employee, b: Employee, s: SortState): int {
    if s.column == "rank" && a.hierarchy == b.hierarchy then
      (if StrLess(Lower(a.name), Lower(b.name)) then -1 else 1)
    else Compare(a, b, s)
  }

  /** "`a` sorts before `b`": the comparator is negative. */
  function Less(s: SortState): (Employee, Employee) -> bool {
    (a: Employee, b: Employee) => Compare(a, b, s) < 0
  }

  /** Both comparators put the same pairs first, so they drive the sort to the same orders. */
  lemma SameOrderAsWritten(a: Employee, b: Employee, s: SortState)
    ensures CompareAsWritten(a, b, s) < 0 <==> Compare(a, b, s) < 0
  {
  }

  /** Finding: two employees of one rank level whose lower-cased names are equal each compare as greater than the other. */
  lemma RankTieNotAntisymmetric(a: Employee, b: Employee, d: Direction)
    requires a.hierarchy == b.hierarchy && Lower(a.name) == Lower(b.name)
    ensures CompareAsWritten(a, b, SortState("rank", d)) == 1
    ensures CompareAsWritten(b, a, SortState("rank", d)) == 1
  {
    StrLessIrreflexive(Lower(a.name));
  }

  /** The corrected comparator is consistent: swapping the rows negates the answer, as `Array.prototype.sort` requires. */
  lemma CompareAntisymmetric(a: Employee, b: Employee, s: SortState)
    ensures Compare(a, b, s) == -Compare(b, a, s)
    ensures -1 <= Compare(a, b, s) <= 1
  {
    StrLessAsymmetric(Lower(a.name), Lower(b.name));
    StrLessAsymmetric(Lower(a.email), Lower(b.email));
  }

  /** On every column but 'rank', sorting descending orders a pair as sorting ascending orders the swapped pair. */
  lemma DescMirrorsAsc(a: Employee, b: Employee, column: string)
    requires column != "rank"
    ensures Compare(a, b, SortState(column, Desc)) == Compare(b, a, SortState(column, Asc))
    ensures Compare(a, b, SortState(column, Desc)) == -Compare(a, b, SortState(column, Asc))
  {
    CompareAntisymmetric(a, b, SortState(column, Asc));
  }

  /** The 'rank' column: different levels in the chosen direction, then names ascending in both directions. */
  lemma RankOrder(a: Employee, b: Employee, d: Direction)
    ensures Less(SortState("rank", d))(a, b) <==>
      if a.hierarchy != b.hierarchy then (if d == Asc then a.hierarchy < b.hierarchy else a.hierarchy > b.hierarchy)
      else StrLess(Lower(a.name), Lower(b.name))
  {
  }

  /** "Not before" is transitive: the comparator never contradicts itself across three rows. */
  lemma NotBeforeTransitive(x: Employee, y: Employee, z: Employee, s: SortState)
    requires Compare(x, y, s) >= 0 && Compare(y, z, s) >= 0
    ensures Compare(x, z, s) >= 0
  {
    if s.column == "name" {
      TextNotBeforeTransitive(Lower(x.name), Lower(y.name), Lower(z.name), s.direction);
    } else if s.column == "rank" {
      if x.hierarchy == y.hierarchy == z.hierarchy {
        TextNotBeforeTransitive(Lower(x.name), Lower(y.name), Lower(z.name), Asc);
      }
    } else if s.column == "email" {
      TextNotBeforeTransitive(Lower(x.email), Lower(y.email), Lower(z.email), s.direction);
    }
  }

  /** Every column's comparator is a strict weak order, so the in-place sort is well defined for it. */
  lemma LessIsStrictWeak(s: SortState)
    ensures StrictWeakOrder(Less(s))
  {
    forall x, y | Less(s)(x, y) ensures !Less(s)(y, x) {
      CompareAntisymmetric(x, y, s);
    }
    forall x, y, z | !Less(s)(x, y) && !Less(s)(y, z) ensures !Less(s)(x, z) {
      NotBeforeTransitive(x, y, z, s);
    }
  }

  // ---------------------------------------------------------------------------
  // Badge and initials
  // ---------------------------------------------------------------------------

  /** `String(id).padStart(4, '0')`: the badge as the table, the export and the search show it. */
  function Badge(id: int): string {
    PadStart(IntToString(id), 4, '0')
  }

  /** The badge of a valid badge number is four characters and `parseInt` reads it back as the number. */
  lemma BadgeReadsBack(id: int)
    requires 1 <= id <= 9999
    ensures |Badge(id)| == 4 && ParseIntAuto(Badge(id)) == Some(id)
  {
    NatToStringWidth(id, 4);
    PaddedReadsBack(id, 4);
    var b := Badge(id);
    assert AllDigits(b) by {
      var digits := NatToString(id);
      forall i | 0 <= i < |b| ensures IsDigit(b[i]) {
        if i >= |b| - |digits| { assert b[i] == b[|b| - |digits|..][i - (|b| - |digits|)]; }
      }
    }
    ParseIntAutoOfDigits(b);
  }

  /** `word.charAt(0)`: the first character, or nothing for an empty word. */
  function CharAt0(w: string): string {
    if w == [] then "" else [w[0]]
  }

  /** `words.map(w => w.charAt(0)).join('')`. */
  function FirstChars(words: seq<string>): string {
    if words == [] then "" else CharAt0(words[0]) + FirstChars(words[1..])
  }

  /** The avatar initials: the first characters of the space-separated words, upper-cased, at most two. */
  function Initials(name: string): (r: string)
    ensures |r| <= 2
  {
    var all := Upper(FirstChars(Split(name, " ")));
    all[..Min(2, |all|)]
  }

  predicate NonEmpty(w: string) {
    w != []
  }

  /** The first character of each word of a list of non-empty words. */
  function Heads(words: seq<string>): (r: string)
    requires forall k :: 0 <= k < |words| ==> words[k] != []
    ensures |r| == |words| && forall k :: 0 <= k < |words| ==> r[k] == words[k][0]
  {
    seq(|words|, k requires 0 <= k < |words| => words[k][0])
  }

  /** The non-empty pieces of a split: the words themselves, without the empty strings repeated spaces leave. */
  function Words(parts: seq<string>): (r: seq<string>)
    ensures forall k :: 0 <= k < |r| ==> r[k] != []
  {
    FilterMembers(parts, NonEmpty);
    var r := Filter(parts, NonEmpty);
    assert forall k :: 0 <= k < |r| ==> r[k] in r && NonEmpty(r[k]);
    r
  }

  /** Empty words (from repeated spaces) contribute nothing: the first characters are those of the non-empty words. */
  lemma {:induction false} FirstCharsOfNonEmpty(parts: seq<string>)
    ensures FirstChars(parts) == Heads(Words(parts))
  {
    if parts != [] {
      FirstCharsOfNonEmpty(parts[1..]);
      var rest := Words(parts[1..]);
      if parts[0] != [] {
        assert Words(parts) == [parts[0]] + rest;
        assert Heads([parts[0]] + rest) == [parts[0][0]] + Heads(rest);
        assert FirstChars(parts) == [parts[0][0]] + FirstChars(parts[1..]);
      } else {
        assert Words(parts) == rest;
        assert FirstChars(parts) == FirstChars(parts[1..]);
      }
    }
  }

  /** The initials are the upper-cased first letters of the first two non-empty words of the name. */
  lemma InitialsOfWords(name: string)
    ensures var words := Words(Split(name, " "));
      |Initials(name)| == Min(2, |words|)
      && forall k :: 0 <= k < |Initials(name)| ==> Initials(name)[k] == UpperChar(words[k][0])
  {
    FirstCharsOfNonEmpty(Split(name, " "));
  }

  // ---------------------------------------------------------------------------
  // Search
  // ---------------------------------------------------------------------------

  /** The term the search box is matched with: lower-cased and trimmed. */
  function SearchTerm(raw: string): string {
    Trim(Lower(raw))
  }

  /** A row matches a term when its lower-cased name, email or grade name, or its padded badge, contains it. */
  predicate Matches(e: Employee, term: string) {
    || Includes(Lower(e.name), term)
    || Includes(Lower(e.email), term)
    || Includes(Badge(e.id), term)
    || (e.rankName.Some? && e.rankName.value != "" && Includes(Lower(e.rankName.value), term))
  }

  function MatchesTerm(term: string): Employee -> bool {
    e => Matches(e, term)
  }

  /** The rows the search box leaves: all of them for a blank term, the matching ones in order otherwise. */
  function Searched(data: seq<Employee>, raw: string): seq<Employee> {
    var term := SearchTerm(raw);
    if term == [] then data else Filter(data, MatchesTerm(term))
  }

  /** An empty search box leaves every row. */
  lemma EmptySearchKeepsAll(data: seq<Employee>)
    ensures Searched(data, "") == data
  {
    assert SearchTerm("") == [];
  }

  /** Typing a badge number without its leading zeros finds the employee. */
  lemma SearchFindsBadgeNumber(e: Employee)
    requires e.id >= 0
    ensures Matches(e, NatToString(e.id))
  {
    var b, digits := Badge(e.id), NatToString(e.id);
    assert Occurs(b, digits, |b| - |digits|);
  }

  // ---------------------------------------------------------------------------
  // Filters
  // ---------------------------------------------------------------------------

  /** The filter form: grade id (a select value), hired after, hired before, last-login window; "" is unset. */
  datatype Filters = Filters(rank: string, hiredAfter: DateBound, hiredBefore: DateBound, login: string)

  const NoFilters: Filters := Filters("", Unset, Unset, "")

  /** `emp.rank_id == filters.rank`: loose equality converts the select's text to a number; a `null` id equals nothing. */
  predicate RankOk(e: Employee, rank: string) {
    rank == "" || (e.rankId.Some? && NumberValue(rank) == Some(e.rankId.value))
  }

  /** `new Date(hired_date) >= new Date(after)`, when the field is set; an unreadable date keeps nothing. */
  predicate HiredAfterOk(e: Employee, after: DateBound) {
    match after
    case Unset => true
    case Unparsable => false
    case At(t) => HiredMs(e) >= t
  }

  /** `new Date(hired_date) <= new Date(before)`, when the field is set. */
  predicate HiredBeforeOk(e: Employee, before: DateBound) {
    match before
    case Unset => true
    case Unparsable => false
    case At(t) => HiredMs(e) <= t
  }

  /**
   * The last-login window, by whole days since the login (floored): 'never'
   * keeps the rows without a login, every window drops them, and a row with
   * a login is kept by 'never' and any unknown value through the default case.
   */
  predicate LoginOk(e: Employee, login: string, now: int) {
    if login == "" then true
    else if e.lastLogin.None? then login == "never"
    else
      var days := (now - e.lastLogin.value) / DateTime.DAY;
      if login == "today" then days < 1
      else if login == "week" then days < 7
      else if login == "month" then days < 30
      else if login == "inactive-week" then days >= 7
      else if login == "inactive-month" then days >= 30
      else true
  }

  /** A row passes the form when it passes every filter that is set. */
  predicate Passes(e: Employee, f: Filters, now: int) {
    RankOk(e, f.rank) && HiredAfterOk(e, f.hiredAfter) && HiredBeforeOk(e, f.hiredBefore) && LoginOk(e, f.login, now)
  }

  function Keep(f: Filters, now: int): Employee -> bool {
    e => Passes(e, f, now)
  }

  /** The four filters in the order the handler applies them: grade, hired after, hired before, last login. */
  predicate StageOk(e: Employee, f: Filters, now: int, k: nat) {
    if k == 0 then RankOk(e, f.rank)
    else if k == 1 then HiredAfterOk(e, f.hiredAfter)
    else if k == 2 then HiredBeforeOk(e, f.hiredBefore)
    else LoginOk(e, f.login, now)
  }

  /** Whether the handler runs filter `k`: only when its field is set. */
  predicate StageSet(f: Filters, k: nat) {
    if k == 0 then f.rank != ""
    else if k == 1 then f.hiredAfter != Unset
    else if k == 2 then f.hiredBefore != Unset
    else f.login != ""
  }

  function ByStage(f: Filters, now: int, k: nat): Employee -> bool {
    e => StageOk(e, f, now, k)
  }

  /** A row passes the first `k` filters. */
  predicate PassesFirst(e: Employee, f: Filters, now: int, k: nat) {
    k == 0 || (PassesFirst(e, f, now, k - 1) && StageOk(e, f, now, k - 1))
  }

  function FirstStages(f: Filters, now: int, k: nat): Employee -> bool {
    e => PassesFirst(e, f, now, k)
  }

  /** Running filter `k` when it is set, and skipping it otherwise, takes the rows passing the first `k` filters to those passing the first `k + 1`. */
  lemma {:induction false} StageStep(s0: seq<Employee>, result: seq<Employee>, f: Filters, now: int, k: nat)
    requires result == Filter(s0, FirstStages(f, now, k))
    ensures StageSet(f, k) ==> Filter(result, ByStage(f, now, k)) == Filter(s0, FirstStages(f, now, k + 1))
    ensures !StageSet(f, k) ==> result == Filter(s0, FirstStages(f, now, k + 1))
  {
    if StageSet(f, k) {
      FilterStage(s0, FirstStages(f, now, k), ByStage(f, now, k), FirstStages(f, now, k + 1));
    } else {
      forall e | e in s0
        ensures FirstStages(f, now, k)(e) == FirstStages(f, now, k + 1)(e)
      {
        assert StageOk(e, f, now, k);
      }
      FilterExt(s0, FirstStages(f, now, k), FirstStages(f, now, k + 1));
    }
  }

  /** No filter keeps every row. */
  lemma NoStageKeepsAll(s0: seq<Employee>, f: Filters, now: int)
    ensures Filter(s0, FirstStages(f, now, 0)) == s0
  {
    forall e | e in s0
      ensures FirstStages(f, now, 0)(e)
    {
      assert PassesFirst(e, f, now, 0);
    }
    FilterKeepsAll(s0, FirstStages(f, now, 0));
  }

  /** Passing the first four filters is passing the form. */
  lemma AllStagesKeep(s0: seq<Employee>, f: Filters, now: int)
    ensures Filter(s0, FirstStages(f, now, 4)) == Filter(s0, Keep(f, now))
  {
    forall e | e in s0
      ensures FirstStages(f, now, 4)(e) == Keep(f, now)(e)
    {
      assert PassesFirst(e, f, now, 1) == RankOk(e, f.rank);
      assert PassesFirst(e, f, now, 2) == (PassesFirst(e, f, now, 1) && HiredAfterOk(e, f.hiredAfter));
      assert PassesFirst(e, f, now, 3) == (PassesFirst(e, f, now, 2) && HiredBeforeOk(e, f.hiredBefore));
      assert PassesFirst(e, f, now, 4) == (PassesFirst(e, f, now, 3) && LoginOk(e, f.login, now));
    }
    FilterExt(s0, FirstStages(f, now, 4), Keep(f, now));
  }

  /** One `if (field) { result = result.filter(...) }` block of `applyEmployeeFilters`, for filter `k`. */
  method RunStage(rows: seq<Employee>, result: seq<Employee>, f: Filters, now: int, k: nat) returns (next: seq<Employee>)
    requires result == Filter(rows, FirstStages(f, now, k))
    ensures next == Filter(rows, FirstStages(f, now, k + 1))
  {
    StageStep(rows, result, f, now, k);
    if StageSet(f, k) {
      next := Filter(result, ByStage(f, now, k));
    } else {
      next := result;
    }
  }

  /**
   * The body of `applyEmployeeFilters`: each filter whose field is set
   * narrows the list in turn, leaving the rows that pass the whole form.
   */
  method Narrow(rows: seq<Employee>, f: Filters, now: int) returns (result: seq<Employee>)
    ensures result == Filter(rows, Keep(f, now))
  {
    NoStageKeepsAll(rows, f, now);
    result := rows;
    result := RunStage(rows, result, f, now, 0);
    result := RunStage(rows, result, f, now, 1);
    result := RunStage(rows, result, f, now, 2);
    result := RunStage(rows, result, f, now, 3);
    AllStagesKeep(rows, f, now);
  }

  /** What the table shows for the rows `data`, the search box `raw` and the filter form `f`, before sorting. */
  function Visible(data: seq<Employee>, raw: string, f: Filters, now: int): seq<Employee> {
    Filter(Searched(data, raw), Keep(f, now))
  }

  /** A row is shown exactly when it is loaded, matches a non-blank search term, and passes every filter. */
  lemma VisibleMembers(data: seq<Employee>, raw: string, f: Filters, now: int, e: Employee)
    ensures e in Visible(data, raw, f, now) <==>
      e in data && (SearchTerm(raw) == [] || Matches(e, SearchTerm(raw))) && Passes(e, f, now)
  {
    var term := SearchTerm(raw);
    if term != [] {
      FilterMembers(data, MatchesTerm(term));
      assert MatchesTerm(term)(e) == Matches(e, term);
    }
    FilterMembers(Searched(data, raw), Keep(f, now));
    assert Keep(f, now)(e) == Passes(e, f, now);
  }

  /** The filter form only ever removes rows. */
  lemma VisibleOnlyRemoves(data: seq<Employee>, raw: string, f: Filters, now: int)
    ensures multiset(Visible(data, raw, f, now)) <= multiset(data)
  {
    var s := Searched(data, raw);
    FilterOnlyRemoves(s, Keep(f, now));
    if SearchTerm(raw) != [] { FilterOnlyRemoves(data, MatchesTerm(SearchTerm(raw))); }
  }

  /** With no filter set, the table shows what the search leaves. */
  lemma NoFiltersKeepSearch(data: seq<Employee>, raw: string, now: int)
    ensures Visible(data, raw, NoFilters, now) == Searched(data, raw)
  {
    FilterKeepsAll(Searched(data, raw), Keep(NoFilters, now));
  }

  /** The login windows in milliseconds since the login: less than 1, 7 or 30 days, or at least 7 or 30. */
  lemma LoginWindows(e: Employee, now: int)
    requires e.lastLogin.Some?
    ensures var elapsed := now - e.lastLogin.value;
      && (LoginOk(e, "today", now) <==> elapsed < DateTime.DAY)
      && (LoginOk(e, "week", now) <==> elapsed < 7 * DateTime.DAY)
      && (LoginOk(e, "month", now) <==> elapsed < 30 * DateTime.DAY)
      && (LoginOk(e, "inactive-week", now) <==> elapsed >= 7 * DateTime.DAY)
      && (LoginOk(e, "inactive-month", now) <==> elapsed >= 30 * DateTime.DAY)
  {
    var elapsed := now - e.lastLogin.value;
    FloorBelow(elapsed, DateTime.DAY, 1);
    FloorBelow(elapsed, DateTime.DAY, 7);
    FloorBelow(elapsed, DateTime.DAY, 30);
  }

  /** Whole units below a bound: `floor(x / d) < k` exactly when `x < k * d`. */
  lemma FloorBelow(x: int, d: int, k: int)
    requires d > 0
    ensures x / d < k <==> x < k * d
  {
    var q := x / d;
    assert x == q * d + x % d && 0 <= x % d < d;
    if q < k {
      assert q * d <= (k - 1) * d by { MulLeq(q, k - 1, d); }
    } else {
      assert k * d <= q * d by { MulLeq(k, q, d); }
    }
  }

  lemma MulLeq(a: int, b: int, d: int)
    requires a <= b && d > 0
    ensures a * d <= b * d
  {
  }

  /** 'never' keeps every row: those without a login by its own case, the others by the default case. */
  lemma NeverKeepsEveryone(e: Employee, now: int)
    ensures LoginOk(e, "never", now)
  {
  }

  /** The number shown on the filter button: how many fields of the form are set. */
  function FilterCount(f: Filters): (r: nat)
    ensures r <= 4
    ensures r == 0 <==> f == NoFilters
  {
    (if f.rank != "" then 1 else 0) + (if f.hiredAfter != Unset then 1 else 0)
    + (if f.hiredBefore != Unset then 1 else 0) + (if f.login != "" then 1 else 0)
  }

  /** The grade select holds the grade ids as text; choosing one keeps exactly the rows of that grade. */
  lemma RankFilterSelectsId(e: Employee, id: int)
    ensures RankOk(e, IntToString(id)) <==> e.rankId == Some(id)
  {
    NumberOfIntToString(id);
  }

  // ---------------------------------------------------------------------------
  // Avatar upload pre-checks
  // ---------------------------------------------------------------------------

  const MAX_AVATAR_BYTES: int := 5 * 1024 * 1024

  datatype AvatarProblem = NotAnImage | TooLarge

  /** The checks before an avatar is resized and sent: an `image/` type first, then at most 5 MB. */
  function AvatarPrecheck(mimeType: string, size: int): (r: Option<AvatarProblem>)
    ensures r == None <==> StartsWith(mimeType, "image/") && size <= MAX_AVATAR_BYTES
    ensures r == Some(NotAnImage) <==> !StartsWith(mimeType, "image/")
  {
    if !StartsWith(mimeType, "image/") then Some(NotAnImage)
    else if size > MAX_AVATAR_BYTES then Some(TooLarge)
    else None
  }

  // ---------------------------------------------------------------------------
  // The "new agent" form
  // ---------------------------------------------------------------------------

  /** The fields of the form as typed (the grade is the select's value). */
  datatype AgentForm = AgentForm(badge: string, name: string, email: string, password: string, phone: string, rank: string)

  /** The body sent to create the agent; `None` is `null` (an empty phone, an unreadable grade id). */
  datatype NewAgent = NewAgent(id: int, name: string, email: string, password: string, phone: Option<string>, rankId: Option<int>)

  /** The warnings of the form, in the order it checks them. */
  datatype FormProblem =
    | BadgeMissing | BadgeInvalid | NameMissing | EmailMissing | EmailInvalid
    | PasswordMissing | PasswordTooShort | RankMissing

  /** A run of characters that are neither white space nor `@` (`[^\s@]`). */
  predicate PlainRun(s: string) {
    forall k :: 0 <= k < |s| ==> !IsSpace(s[k]) && s[k] != '@'
  }

  /**
   * `/^[^\s@]+@[^\s@]+\.[^\s@]+$/.test(s)`, read off the pattern: a non-empty
   * run before an `@`, then a run holding a dot with something on both sides.
   */
  predicate EmailPattern(s: string) {
    exists i, j :: 0 < i && i + 1 < j < |s| - 1 && s[i] == '@' && s[j] == '.' && PlainRun(s[..i]) && PlainRun(s[i + 1..])
  }

  /**
   * The same test, computed: the text before the first `@` is a non-empty
   * plain run, and the text after it is a plain run with a dot strictly inside.
   */
  predicate EmailMatches(s: string) {
    match IndexOf(s, "@")
    case None => false
    case Some(i) =>
      var domain := s[i + 1..];
      i > 0 && |domain| >= 3 && PlainRun(s[..i]) && PlainRun(domain) && Includes(domain[1..|domain| - 1], ".")
  }

  /** The computed test accepts exactly the strings the pattern matches. */
  lemma EmailMatchesPattern(s: string)
    ensures EmailMatches(s) <==> EmailPattern(s)
  {
    if EmailMatches(s) { MatchesGivesPattern(s); }
    if EmailPattern(s) { PatternGivesMatches(s); }
  }

  lemma MatchesGivesPattern(s: string)
    requires EmailMatches(s)
    ensures EmailPattern(s)
  {
    var i := IndexOf(s, "@").value;
    var domain := s[i + 1..];
    var inner := domain[1..|domain| - 1];
    var m := IndexOf(inner, ".").value;
    assert inner[m] == '.' by { assert inner[m..m + 1] == "."; }
    var j := i + 2 + m;
    assert s[i] == '@' by { assert s[i..i + 1] == "@"; }
    assert s[j] == '.' by { assert s[j] == domain[1 + m] == inner[m]; }
  }

  /** An `@` with no `@` before it is the one `indexOf` finds. */
  lemma FirstAt(s: string, i: nat)
    requires i < |s| && s[i] == '@' && PlainRun(s[..i])
    ensures IndexOf(s, "@") == Some(i)
  {
    assert Occurs(s, "@", i) by { assert s[i..i + 1] == [s[i]]; }
    forall k | 0 <= k < i
      ensures !Occurs(s, "@", k)
    {
      assert s[..i][k] == s[k];
      assert s[k..k + 1] == [s[k]];
    }
  }

  /** A dot at `j` lies strictly inside the text after the `@` at `i` when `i + 1 < j < |s| - 1`. */
  lemma DotInside(s: string, i: nat, j: nat)
    requires i + 1 < j < |s| - 1 && s[j] == '.'
    ensures var domain := s[i + 1..]; Includes(domain[1..|domain| - 1], ".")
  {
    var domain := s[i + 1..];
    var inner := domain[1..|domain| - 1];
    var m := j - i - 2;
    assert inner[m] == s[j];
    assert inner[m..m + 1] == [inner[m]];
    assert Occurs(inner, ".", m);
  }

  lemma PatternGivesMatches(s: string)
    requires EmailPattern(s)
    ensures EmailMatches(s)
  {
    var i, j :| 0 < i && i + 1 < j < |s| - 1 && s[i] == '@' && s[j] == '.' && PlainRun(s[..i]) && PlainRun(s[i + 1..]);
    FirstAt(s, i);
    DotInside(s, i, j);
  }

  /** A matching address has no white space and exactly one `@`. */
  lemma EmailShape(s: string)
    requires EmailMatches(s)
    ensures forall k :: 0 <= k < |s| ==> !IsSpace(s[k])
    ensures exists i :: 0 < i < |s| - 1 && s[i] == '@' && forall k :: 0 <= k < |s| && s[k] == '@' ==> k == i
  {
    EmailMatchesPattern(s);
    var i, j :| 0 < i && i + 1 < j < |s| - 1 && s[i] == '@' && s[j] == '.' && PlainRun(s[..i]) && PlainRun(s[i + 1..]);
    forall k | 0 <= k < |s| ensures !IsSpace(s[k]) && (s[k] == '@' ==> k == i) {
      if k < i { assert s[..i][k] == s[k]; }
      else if k > i { assert s[i + 1..][k - i - 1] == s[k]; }
    }
  }

  /** Any `local@domain.tld` made of non-empty runs without white space or `@` matches. */
  lemma EmailOfParts(local: string, domain: string, tld: string)
    requires local != [] && domain != [] && tld != []
    requires PlainRun(local) && PlainRun(domain) && PlainRun(tld)
    ensures EmailMatches(local + "@" + domain + "." + tld)
  {
    var s := local + "@" + domain + "." + tld;
    var i, j := |local|, |local| + 1 + |domain|;
    assert s[i] == '@' && s[j] == '.';
    assert s[..i] == local;
    assert s[i + 1..] == domain + "." + tld;
    assert PlainRun(domain + "." + tld) by {
      var t := domain + "." + tld;
      forall k | 0 <= k < |t| ensures !IsSpace(t[k]) && t[k] != '@' {
        if k < |domain| { assert t[k] == domain[k]; }
        else if k > |domain| { assert t[k] == tld[k - |domain| - 1]; }
      }
    }
    assert EmailPattern(s);
    EmailMatchesPattern(s);
  }

  /** `!isNaN(n) && 1 <= n <= 9999`. */
  predicate ValidBadge(n: Option<int>) {
    n.Some? && 1 <= n.value <= 9999
  }

  /** The fields as the handler reads them: badge, name, email and phone trimmed; password and grade as they are. */
  function Submitted(form: AgentForm): AgentForm {
    AgentForm(Trim(form.badge), Trim(form.name), Trim(form.email), form.password, Trim(form.phone), form.rank)
  }

  /** Whether the read fields fail one check, each judged on its own. */
  predicate Fails(f: AgentForm, p: FormProblem) {
    match p
    case BadgeMissing => f.badge == []
    case BadgeInvalid => !ValidBadge(ParseIntAuto(f.badge))
    case NameMissing => f.name == []
    case EmailMissing => f.email == []
    case EmailInvalid => !EmailMatches(f.email)
    case PasswordMissing => f.password == []
    case PasswordTooShort => |f.password| < 8
    case RankMissing => f.rank == []
  }

  /** The checks in the order the handler makes them. */
  const CHECK_ORDER: seq<FormProblem> :=
    [BadgeMissing, BadgeInvalid, NameMissing, EmailMissing, EmailInvalid, PasswordMissing, PasswordTooShort, RankMissing]

  /** The position of a check in the handler. */
  function Step(p: FormProblem): (k: nat)
    ensures k < |CHECK_ORDER| && CHECK_ORDER[k] == p
  {
    match p
    case BadgeMissing => 0
    case BadgeInvalid => 1
    case NameMissing => 2
    case EmailMissing => 3
    case EmailInvalid => 4
    case PasswordMissing => 5
    case PasswordTooShort => 6
    case RankMissing => 7
  }

  /** The submit handler of the form: the first failing check stops it with its warning, otherwise the agent to create. */
  function ValidateAgent(form: AgentForm): Result<NewAgent, FormProblem> {
    CheckFields(Submitted(form))
  }

  /** The checks of the submit handler, in order, on the fields as read. */
  function CheckFields(f: AgentForm): (r: Result<NewAgent, FormProblem>)
    ensures r.Ok? ==> 1 <= r.value.id <= 9999 && r.value.name != []
    ensures r.Ok? ==> EmailMatches(r.value.email) && |r.value.password| >= 8
    ensures r.Ok? && r.value.phone.Some? ==> r.value.phone.value != []
  {
    var badgeNum := ParseIntAuto(f.badge);
    if f.badge == [] then Err(BadgeMissing)
    else if !ValidBadge(badgeNum) then Err(BadgeInvalid)
    else if f.name == [] then Err(NameMissing)
    else if f.email == [] then Err(EmailMissing)
    else if !EmailMatches(f.email) then Err(EmailInvalid)
    else if f.password == [] then Err(PasswordMissing)
    else if |f.password| < 8 then Err(PasswordTooShort)
    else if f.rank == [] then Err(RankMissing)
    else Ok(NewAgent(badgeNum.value, f.name, f.email, f.password, if f.phone == [] then None else Some(f.phone), ParseIntAuto(f.rank)))
  }

  /** No check among the first `k` of the handler fails. */
  predicate PassesBefore(f: AgentForm, k: nat)
    requires k <= |CHECK_ORDER|
  {
    k == 0 || (PassesBefore(f, k - 1) && !Fails(f, CHECK_ORDER[k - 1]))
  }

  /** Passing the first `k` checks is passing each of them. */
  lemma {:induction false} PassesBeforeDown(f: AgentForm, j: nat, k: nat)
    requires j <= k <= |CHECK_ORDER|
    ensures PassesBefore(f, k) ==> PassesBefore(f, j)
    decreases k
  {
    if j < k {
      PassesBeforeDown(f, j, k - 1);
    }
  }

  /** The fields are refused exactly when some check fails, and then with the warning of the first failing check. */
  lemma CheckFieldsFirstFailure(f: AgentForm)
    ensures CheckFields(f).Ok? <==> PassesBefore(f, 8)
    ensures CheckFields(f).Err? ==> Fails(f, CheckFields(f).error) && PassesBefore(f, Step(CheckFields(f).error))
  {
    var r := CheckFields(f);
    if Fails(f, BadgeMissing) { PassesBeforeDown(f, 1, 8); assert r == Err(BadgeMissing); return; }
    assert PassesBefore(f, 1);
    if Fails(f, BadgeInvalid) { PassesBeforeDown(f, 2, 8); assert r == Err(BadgeInvalid); return; }
    assert PassesBefore(f, 2);
    if Fails(f, NameMissing) { PassesBeforeDown(f, 3, 8); assert r == Err(NameMissing); return; }
    assert PassesBefore(f, 3);
    if Fails(f, EmailMissing) { PassesBeforeDown(f, 4, 8); assert r == Err(EmailMissing); return; }
    assert PassesBefore(f, 4);
    CheckFieldsLastFour(f);
  }

  /** The same, for fields that pass the first four checks. */
  lemma CheckFieldsLastFour(f: AgentForm)
    requires PassesBefore(f, 4)
    ensures CheckFields(f).Ok? <==> PassesBefore(f, 8)
    ensures CheckFields(f).Err? ==> Fails(f, CheckFields(f).error) && PassesBefore(f, Step(CheckFields(f).error))
  {
    PassesBeforeDown(f, 1, 4);
    PassesBeforeDown(f, 2, 4);
    PassesBeforeDown(f, 3, 4);
    var r := CheckFields(f);
    if Fails(f, EmailInvalid) { PassesBeforeDown(f, 5, 8); assert r == Err(EmailInvalid); return; }
    assert PassesBefore(f, 5);
    if Fails(f, PasswordMissing) { PassesBeforeDown(f, 6, 8); assert r == Err(PasswordMissing); return; }
    assert PassesBefore(f, 6);
    CheckFieldsLastTwo(f);
  }

  /** The same, for fields that pass the first six checks. */
  lemma CheckFieldsLastTwo(f: AgentForm)
    requires PassesBefore(f, 6)
    ensures CheckFields(f).Ok? <==> PassesBefore(f, 8)
    ensures CheckFields(f).Err? ==> Fails(f, CheckFields(f).error) && PassesBefore(f, Step(CheckFields(f).error))
  {
    PassesBeforeDown(f, 1, 6);
    PassesBeforeDown(f, 2, 6);
    PassesBeforeDown(f, 3, 6);
    PassesBeforeDown(f, 4, 6);
    PassesBeforeDown(f, 5, 6);
    var r := CheckFields(f);
    if Fails(f, PasswordTooShort) { PassesBeforeDown(f, 7, 8); assert r == Err(PasswordTooShort); return; }
    assert PassesBefore(f, 7);
    if Fails(f, RankMissing) { assert r == Err(RankMissing); return; }
    assert PassesBefore(f, 8);
  }

  // ---------------------------------------------------------------------------
  // The roster
  // ---------------------------------------------------------------------------

  /**
   * The page's state: every loaded row, the array the table displays
   * (filtered, then sorted in place), the current page, the sort and the
   * filter form.
   */
  class Roster {
    var data: seq<Employee>
    var filtered: array<Employee>
    var page: int
    var sort: SortState
    var filters: Filters

    /** The table only ever holds loaded rows, always in the order of the current sort, and the page counts from 1. */
    ghost predicate Valid()
      reads this, filtered
    {
      && 1 <= page
      && multiset(filtered[..]) <= multiset(data)
      && SortedBy(filtered[..], Less(sort))
    }

    /** The page before loading: nothing loaded, page 1, sorted by rank ascending, no filter. */
    constructor()
      ensures Valid() && fresh(filtered)
      ensures data == [] && filtered[..] == [] && page == 1 && sort == SortState("rank", Asc) && filters == NoFilters
    {
      data := [];
      filtered := new Employee[0];
      page := 1;
      sort := SortState("rank", Asc);
      filters := NoFilters;
    }

    /** `sortEmployeesData`: sorts the displayed array in place with the comparator of the current column. */
    method SortFiltered()
      modifies filtered
      ensures SortedBy(filtered[..], Less(sort))
      ensures multiset(filtered[..]) == old(multiset(filtered[..]))
    {
      LessIsStrictWeak(sort);
      SortInPlace(filtered, Less(sort));
    }

    /** `loadEmployeesData` on success: every row is shown, sorted; the page, the sort and the filter form are kept. */
    method Load(rows: seq<Employee>)
      modifies this
      requires 1 <= page
      ensures Valid() && fresh(filtered)
      ensures data == rows && multiset(filtered[..]) == multiset(rows)
      ensures page == old(page) && sort == old(sort) && filters == old(filters)
    {
      data := rows;
      filtered := ToArray(rows);
      SortFiltered();
    }

    /** `applyEmployeeFilters`: each filter that is set narrows the displayed rows in turn, keeping their order. */
    method ApplyFilters(now: int)
      modifies this
      ensures fresh(filtered) && filtered[..] == Filter(old(filtered[..]), Keep(filters, now))
      ensures data == old(data) && page == old(page) && sort == old(sort) && filters == old(filters)
    {
      var result := Narrow(filtered[..], filters, now);
      filtered := ToArray(result);
    }

    /** `handleEmployeeSearch`: the rows the term leaves, narrowed by the filter form, sorted, from page 1. */
    method Search(raw: string, now: int)
      modifies this
      ensures Valid() && fresh(filtered)
      ensures multiset(filtered[..]) == multiset(Visible(data, raw, filters, now))
      ensures page == 1 && data == old(data) && sort == old(sort) && filters == old(filters)
    {
      filtered := ToArray(Searched(data, raw));
      ApplyFilters(now);
      ghost var shown := filtered[..];
      assert shown == Visible(data, raw, filters, now);
      VisibleOnlyRemoves(data, raw, filters, now);
      SortFiltered();
      assert multiset(filtered[..]) == multiset(shown);
      page := 1;
    }

    /** The "apply filters" button: stores the form, then searches again when the box holds text, or filters every row. */
    method ApplyFilterForm(f: Filters, searchBox: string, now: int)
      modifies this
      ensures Valid() && fresh(filtered)
      ensures filters == f && page == 1
      ensures multiset(filtered[..]) == multiset(Visible(data, searchBox, f, now))
      ensures data == old(data) && sort == old(sort)
    {
      filters := f;
      if searchBox != "" {
        Search(searchBox, now);
      } else {
        filtered := ToArray(data);
        ApplyFilters(now);
        SortFiltered();
        page := 1;
        VisibleOnlyRemoves(data, searchBox, f, now);
      }
    }

    /** Every loaded row, sorted, from page 1. */
    method ShowAll()
      modifies this
      ensures Valid() && fresh(filtered)
      ensures multiset(filtered[..]) == multiset(data) && page == 1
      ensures data == old(data) && sort == old(sort) && filters == old(filters)
    {
      filtered := ToArray(data);
      SortFiltered();
      page := 1;
    }

    /** `resetEmployeeFilters`: clears the form and shows what the search box alone leaves, sorted, from page 1. */
    method ResetFilters(searchBox: string, now: int)
      modifies this
      ensures Valid() && fresh(filtered)
      ensures filters == NoFilters && page == 1
      ensures multiset(filtered[..]) == multiset(Searched(data, searchBox))
      ensures data == old(data) && sort == old(sort)
    {
      filters := NoFilters;
      if searchBox != "" {
        Search(searchBox, now);
        NoFiltersKeepSearch(data, searchBox, now);
      } else {
        ShowAll();
        EmptySearchKeepsAll(data);
      }
    }

    /** A click on a column header: toggles or moves the sort, then sorts the displayed rows again. */
    method HeaderClick(column: string)
      requires Valid()
      modifies this, filtered
      ensures Valid()
      ensures sort == ClickHeader(old(sort), column)
      ensures filtered == old(filtered) && multiset(filtered[..]) == old(multiset(filtered[..]))
      ensures data == old(data) && page == old(page) && filters == old(filters)
    {
      sort := ClickHeader(sort, column);
      SortFiltered();
    }

    /** The number of pages of the displayed rows. */
    function TotalPagesNow(): nat
      reads this
    {
      TotalPages(filtered.Length, PER_PAGE)
    }

    /** The "previous" button: one page back unless on the first page. A page inside the table stays inside it. */
    method PrevPage()
      modifies this
      ensures page == if old(page) > 1 then old(page) - 1 else old(page)
      ensures 1 <= old(page) <= Max(1, TotalPagesNow()) ==> 1 <= page <= Max(1, TotalPagesNow())
      ensures data == old(data) && filtered == old(filtered) && sort == old(sort) && filters == old(filters)
    {
      if page > 1 {
        page := page - 1;
      }
    }

    /** The "next" button: one page on unless on the last page. A page inside the table stays inside it. */
    method NextPage()
      modifies this
      ensures page == if old(page) < TotalPagesNow() then old(page) + 1 else old(page)
      ensures 1 <= old(page) <= Max(1, TotalPagesNow()) ==> 1 <= page <= Max(1, TotalPagesNow())
      ensures data == old(data) && filtered == old(filtered) && sort == old(sort) && filters == old(filters)
    {
      if page < TotalPages(filtered.Length, PER_PAGE) {
        page := page + 1;
      }
    }

    /** A click on a page-number button. */
    method GoToPage(p: int)
      requires 1 <= p
      modifies this
      ensures page == p
      ensures data == old(data) && filtered == old(filtered) && sort == old(sort) && filters == old(filters)
    {
      page := p;
    }

    /** The rows `displayEmployeesTable` draws: the slice of the current page. */
    function PageRows(): (r: seq<Employee>)
      requires 1 <= page
      reads this, filtered
      ensures |r| <= PER_PAGE
      ensures forall k :: 0 <= k < |r| ==> 0 <= PageStart(page, PER_PAGE) + k < filtered.Length && r[k] == filtered[PageStart(page, PER_PAGE) + k]
    {
      PageSlice(filtered[..], page, PER_PAGE)
    }

    /**
     * `updateEmployeesPagination`: the "showing from .. to .. of" numbers,
     * whether "previous" and "next" are disabled, and the page buttons.
     */
    method Pagination() returns (from: int, to: int, count: nat, prevDisabled: bool, nextDisabled: bool, buttons: seq<int>)
      requires 1 <= page
      ensures count == filtered.Length
      ensures (from, to) == ShowingRange(count, page, PER_PAGE)
      ensures 1 <= page <= TotalPagesNow() ==> from == (page - 1) * PER_PAGE + 1 && to - from + 1 == |PageRows()|
      ensures count == 0 ==> from == 0 && to == 0
      ensures prevDisabled <==> page == 1
      ensures nextDisabled <==> page == TotalPagesNow() || TotalPagesNow() == 0
      ensures 1 <= page <= TotalPagesNow() ==>
        |buttons| == Min(5, TotalPagesNow()) && page in buttons
        && forall p :: p in buttons ==> 1 <= p <= TotalPagesNow()
      ensures forall k :: 0 <= k < |buttons| - 1 ==> buttons[k + 1] == buttons[k] + 1
      ensures TotalPagesNow() == 0 ==> buttons == []
      ensures var (lo, hi) := PageWindow(page, TotalPagesNow());
        |buttons| == Max(0, hi - lo + 1) && forall k :: 0 <= k < |buttons| ==> buttons[k] == lo + k
    {
      count := filtered.Length;
      var total := TotalPages(count, PER_PAGE);
      var range := ShowingRange(count, page, PER_PAGE);
      from, to := range.0, range.1;
      if 1 <= page <= total {
        ShowingMatchesSlice(filtered[..], page, PER_PAGE);
      }
      prevDisabled := page == 1;
      nextDisabled := page == total || total == 0;
      buttons := PageButtons(page, total);
    }
  }
}
