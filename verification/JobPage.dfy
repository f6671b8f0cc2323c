/** The Job tab of a new employee (`JobPage.ValidateAndFillJobDetailsAsync`):
    five dropdowns tried in a fixed order, the first failure reported, and the
    joined date written only when all five were selected. */
module JobPage {
  import opened Text
  import opened Driver
  import opened Dropdown
  import opened Models

  datatype JobField = JobTitle | JobCategory | SubUnit | Location | EmploymentStatus

  /** The order in which the fields are tried. */
  const JobFields: seq<JobField> := [JobTitle, JobCategory, SubUnit, Location, EmploymentStatus]

  const JoinedDateField := "Joined Date"
  const JobErrorMessage := "Error filling job details"

  /** The label of each dropdown, as the page shows it. */
  function FieldName(f: JobField): string {
    match f
    case JobTitle => "Job Title"
    case JobCategory => "Job Category"
    case SubUnit => "Sub Unit"
    case Location => "Location"
    case EmploymentStatus => "Employment Status"
  }

  /** The value the request asks for in field `f`. */
  function Requested(job: JobInfo, f: JobField): string {
    match f
    case JobTitle => job.jobTitle
    case JobCategory => job.jobCategory
    case SubUnit => job.subUnit
    case Location => job.location
    case EmploymentStatus => job.employmentStatus
  }

  /** The message returned when field `f` could not be selected. */
  function NotFoundMessage(job: JobInfo, f: JobField): string {
    match f
    case JobTitle => "Job title '" + job.jobTitle + "' not found"
    case JobCategory => "Job category '" + job.jobCategory + "' not found"
    case SubUnit => "Sub unit '" + job.subUnit + "' not found"
    case Location => "Location '" + job.location + "' not found"
    case EmploymentStatus => "Employment status '" + job.employmentStatus + "' not found"
  }

  /** What the driver finds on the Job tab: each dropdown, and whether the
      joined-date input exists. */
  datatype JobForm = JobForm(
    jobTitle: DropdownView,
    jobCategory: DropdownView,
    subUnit: DropdownView,
    location: DropdownView,
    employmentStatus: DropdownView,
    joinedDateShown: bool)

  function View(form: JobForm, f: JobField): DropdownView {
    match f
    case JobTitle => form.jobTitle
    case JobCategory => form.jobCategory
    case SubUnit => form.subUnit
    case Location => form.location
    case EmploymentStatus => form.employmentStatus
  }

  /** The selection of field `f`. */
  function FieldRun(job: JobInfo, form: JobForm, caseSensitive: bool, f: JobField): Run<bool> {
    SelectionRun(FieldName(f), View(form, f), Requested(job, f), caseSensitive)
  }

  predicate Selected(job: JobInfo, form: JobForm, caseSensitive: bool, f: JobField) {
    FieldRun(job, form, caseSensitive, f).result
  }

  /** The selections of all five fields, as one function of the field. */
  function Selections(job: JobInfo, form: JobForm, caseSensitive: bool): JobField -> Run<bool> {
    f => FieldRun(job, form, caseSensitive, f)
  }

  // ----- the order of the fields, whatever each selection does -----

  /** Tries `fields` in order, field `f` selecting as `runs(f)` says, and
      stops at the first that cannot be selected; the result is that field's
      index, or None when all were selected. */
  function SelectAll(runs: JobField -> Run<bool>, fields: seq<JobField>): (r: Run<Option<nat>>)
    ensures r.result.Some? ==> r.result.value < |fields|
  {
    if fields == [] then Run(None, [])
    else
      var first := runs(fields[0]);
      if !first.result then Run(Some(0), first.actions)
      else
        var rest := SelectAll(runs, fields[1..]);
        Run(if rest.result.Some? then Some(rest.result.value + 1) else None, first.actions + rest.actions)
  }

  datatype FillResult = FillResult(success: bool, error: Option<string>)

  /** ValidateAndFillJobDetailsAsync when the selections go as `runs`: the
      first failure's message, else the joined date is written. */
  function JobRunOver(job: JobInfo, runs: JobField -> Run<bool>, joinedDateShown: bool, today: string): Run<FillResult> {
    var sel := SelectAll(runs, JobFields);
    if sel.result.Some? then
      Run(FillResult(false, Some(NotFoundMessage(job, JobFields[sel.result.value]))), sel.actions)
    else if joinedDateShown then
      Run(FillResult(true, None), sel.actions + [Fill(JoinedDateField, today)])
    else
      // locating the joined-date input throws; the handler reports a generic error
      Run(FillResult(false, Some(JobErrorMessage)), sel.actions)
  }

  /** The outcome and the actions of ValidateAndFillJobDetailsAsync. */
  function JobRun(job: JobInfo, form: JobForm, caseSensitive: bool, today: string): Run<FillResult> {
    JobRunOver(job, Selections(job, form, caseSensitive), form.joinedDateShown, today)
  }

  /** The actions of the first `k` selections, in order. */
  function Attempted(runs: JobField -> Run<bool>, k: nat): seq<Action>
    requires k <= |JobFields|
  {
    if k == 0 then [] else Attempted(runs, k - 1) + runs(JobFields[k - 1]).actions
  }

  /** The first `k` fields were all selected. */
  predicate SelectedUpTo(runs: JobField -> Run<bool>, k: nat)
    requires k <= |JobFields|
  {
    k == 0 || (SelectedUpTo(runs, k - 1) && runs(JobFields[k - 1]).result)
  }

  /** SelectAll past a field that was selected. */
  lemma SelectAllPast(runs: JobField -> Run<bool>, fields: seq<JobField>)
    requires fields != [] && runs(fields[0]).result
    ensures var rest := SelectAll(runs, fields[1..]);
            SelectAll(runs, fields)
              == Run(if rest.result.Some? then Some(rest.result.value + 1) else None, runs(fields[0]).actions + rest.actions)
  {
  }

  /** Once the first `k` fields were selected, what SelectAll does is those
      selections followed by what it does on the remaining fields. */
  lemma {:induction false} SelectAllAfter(runs: JobField -> Run<bool>, k: nat)
    requires k <= |JobFields| && SelectedUpTo(runs, k)
    ensures var all := SelectAll(runs, JobFields);
            var rest := SelectAll(runs, JobFields[k..]);
            && all.actions == Attempted(runs, k) + rest.actions
            && all.result == (if rest.result.Some? then Some(rest.result.value + k) else None)
  {
    if k == 0 {
      assert JobFields[k..] == JobFields;
    } else {
      SelectAllAfter(runs, k - 1);
      var fields := JobFields[k - 1..];
      assert fields[1..] == JobFields[k..];
      SelectAllPast(runs, fields);
      AppendInSteps(Attempted(runs, k - 1), runs(JobFields[k - 1]).actions, SelectAll(runs, JobFields[k..]).actions);
    }
  }

  /** JobRunOver when the first `k` fields were selected and field `k`, if any,
      was not. */
  lemma JobRunOverAfter(job: JobInfo, runs: JobField -> Run<bool>, joinedDateShown: bool, today: string, k: nat)
    requires k <= |JobFields| && SelectedUpTo(runs, k)
    requires k < |JobFields| ==> !runs(JobFields[k]).result
    ensures var r := JobRunOver(job, runs, joinedDateShown, today);
            if k < |JobFields| then
              r == Run(FillResult(false, Some(NotFoundMessage(job, JobFields[k]))), Attempted(runs, k + 1))
            else if joinedDateShown then
              r == Run(FillResult(true, None), Attempted(runs, k) + [Fill(JoinedDateField, today)])
            else
              r == Run(FillResult(false, Some(JobErrorMessage)), Attempted(runs, k))
  {
    SelectAllAfter(runs, k);
    if k < |JobFields| {
      assert JobFields[k..][0] == JobFields[k];
    } else {
      assert JobFields[k..] == [];
    }
  }

  /** SelectAll stops at the first field that could not be selected, having
      selected every field before it, and reports none only when every field
      was selected. */
  lemma {:induction false} SelectAllFindsFirstFailure(runs: JobField -> Run<bool>, fields: seq<JobField>)
    ensures var r := SelectAll(runs, fields);
            && (r.result.Some? ==> !runs(fields[r.result.value]).result)
            && (r.result.Some? ==> forall j :: 0 <= j < r.result.value ==> runs(fields[j]).result)
            && (r.result.None? ==> forall j :: 0 <= j < |fields| ==> runs(fields[j]).result)
  {
    if fields != [] && runs(fields[0]).result {
      SelectAllFindsFirstFailure(runs, fields[1..]);
      var r := SelectAll(runs, fields);
      var rest := SelectAll(runs, fields[1..]);
      if r.result.Some? {
        forall j | 0 <= j < r.result.value ensures runs(fields[j]).result {
          if j > 0 { assert fields[j] == fields[1..][j - 1]; }
        }
        assert fields[r.result.value] == fields[1..][rest.result.value];
      } else {
        forall j | 0 <= j < |fields| ensures runs(fields[j]).result {
          if j > 0 { assert fields[j] == fields[1..][j - 1]; }
        }
      }
    }
  }

  /** SelectedUpTo is the quantified statement. */
  lemma {:induction false} SelectedUpToAll(runs: JobField -> Run<bool>, k: nat)
    requires k <= |JobFields|
    ensures SelectedUpTo(runs, k) <==> forall j :: 0 <= j < k ==> runs(JobFields[j]).result
  {
    if k > 0 {
      SelectedUpToAll(runs, k - 1);
    }
  }

  /** Each field's selection writes no input and works on no other field's
      dropdown. */
  predicate KeepsToOwnField(runs: JobField -> Run<bool>) {
    && (forall f, a :: a in runs(f).actions ==> !a.Fill?)
    && (forall f, g, a :: a in runs(f).actions && g != f ==> !Touches(a, FieldName(g)))
  }

  /** The first `k` selections work only on the first `k` dropdowns (or the
      page body) and write no input. */
  lemma {:induction false} AttemptedStaysOnFirstFields(runs: JobField -> Run<bool>, k: nat)
    requires k <= |JobFields| && KeepsToOwnField(runs)
    ensures forall a :: a in Attempted(runs, k) ==> !a.Fill?
    ensures forall a, j :: a in Attempted(runs, k) && k <= j < |JobFields| ==> !Touches(a, FieldName(JobFields[j]))
  {
    if k > 0 {
      AttemptedStaysOnFirstFields(runs, k - 1);
      var f := JobFields[k - 1];
      var before := Attempted(runs, k - 1);
      var step := runs(f).actions;
      assert Attempted(runs, k) == before + step;
      forall a, j | a in before + step && k <= j < |JobFields|
        ensures !Touches(a, FieldName(JobFields[j]))
      {
        if a in step {
          assert JobFields[j] != f;
        }
      }
    }
  }

  // ----- the five dropdowns of the Job tab -----

  /** The five labels are distinct. */
  lemma FieldNamesDistinct(f: JobField, g: JobField)
    requires f != g
    ensures FieldName(f) != FieldName(g)
  {
    assert FieldName(JobTitle)[4] != FieldName(JobCategory)[4];
  }

  /** Each of the five selections keeps to its own dropdown. */
  lemma SelectionsKeepToOwnField(job: JobInfo, form: JobForm, caseSensitive: bool)
    ensures KeepsToOwnField(Selections(job, form, caseSensitive))
  {
    var runs := Selections(job, form, caseSensitive);
    forall f, a | a in runs(f).actions ensures !a.Fill? {
      SelectionStaysOnField(FieldName(f), View(form, f), Requested(job, f), caseSensitive);
    }
    forall f, g, a | a in runs(f).actions && g != f ensures !Touches(a, FieldName(g)) {
      SelectionStaysOnField(FieldName(f), View(form, f), Requested(job, f), caseSensitive);
      FieldNamesDistinct(f, g);
    }
  }

  /** `SelectDropdownOptionAsync` on field `f`. */
  method SelectField(driver: Browser, job: JobInfo, form: JobForm, caseSensitive: bool, f: JobField)
    returns (ok: bool)
    requires driver.Valid() && !driver.released
    modifies driver
    ensures driver.Valid() && !driver.released
    ensures ok == Selected(job, form, caseSensitive, f)
    ensures driver.trace == old(driver.trace) + FieldRun(job, form, caseSensitive, f).actions
  {
    ok := SelectDropdownOption(driver, FieldName(f), View(form, f), Requested(job, f), caseSensitive);
  }

  /** One step of the fill: selects field `k` once the first `k` were
      selected; on failure the actions and the outcome are those of JobRun. */
  method SelectStep(driver: Browser, job: JobInfo, form: JobForm, caseSensitive: bool, today: string,
                    ghost start: seq<Action>, ghost k: nat, f: JobField)
    returns (ok: bool)
    requires k < |JobFields| && f == JobFields[k] && SelectedUpTo(Selections(job, form, caseSensitive), k)
    requires driver.Valid() && !driver.released
    requires driver.trace == start + Attempted(Selections(job, form, caseSensitive), k)
    modifies driver
    ensures driver.Valid() && !driver.released
    ensures ok ==> SelectedUpTo(Selections(job, form, caseSensitive), k + 1)
    ensures ok ==> driver.trace == start + Attempted(Selections(job, form, caseSensitive), k + 1)
    ensures !ok ==> JobRun(job, form, caseSensitive, today).result == FillResult(false, Some(NotFoundMessage(job, f)))
    ensures !ok ==> driver.trace == start + JobRun(job, form, caseSensitive, today).actions
  {
    ghost var runs := Selections(job, form, caseSensitive);
    ok := SelectField(driver, job, form, caseSensitive, f);
    assert runs(f) == FieldRun(job, form, caseSensitive, f);
    assert Attempted(runs, k + 1) == Attempted(runs, k) + runs(f).actions;
    AppendInSteps(start, Attempted(runs, k), runs(f).actions);
    if !ok {
      JobRunOverAfter(job, runs, form.joinedDateShown, today, k);
    }
  }

  method ValidateAndFillJobDetails(driver: Browser, job: JobInfo, form: JobForm, caseSensitive: bool, today: string)
    returns (success: bool, error: Option<string>)
    requires driver.Valid() && !driver.released
    modifies driver
    ensures driver.Valid() && !driver.released
    ensures FillResult(success, error) == JobRun(job, form, caseSensitive, today).result
    ensures driver.trace == old(driver.trace) + JobRun(job, form, caseSensitive, today).actions
  {
    ghost var start := driver.trace;
    ghost var runs := Selections(job, form, caseSensitive);
    assert driver.trace == start + Attempted(runs, 0);
    var ok;
    ok := SelectStep(driver, job, form, caseSensitive, today, start, 0, JobTitle);
    if !ok {
      return false, Some(NotFoundMessage(job, JobTitle));
    }
    ok := SelectStep(driver, job, form, caseSensitive, today, start, 1, JobCategory);
    if !ok {
      return false, Some(NotFoundMessage(job, JobCategory));
    }
    ok := SelectStep(driver, job, form, caseSensitive, today, start, 2, SubUnit);
    if !ok {
      return false, Some(NotFoundMessage(job, SubUnit));
    }
    ok := SelectStep(driver, job, form, caseSensitive, today, start, 3, Location);
    if !ok {
      return false, Some(NotFoundMessage(job, Location));
    }
    ok := SelectStep(driver, job, form, caseSensitive, today, start, 4, EmploymentStatus);
    if !ok {
      return false, Some(NotFoundMessage(job, EmploymentStatus));
    }
    JobRunOverAfter(job, runs, form.joinedDateShown, today, 5);
    if !form.joinedDateShown {
      return false, Some(JobErrorMessage);
    }
    driver.Perform(Fill(JoinedDateField, today));
    AppendInSteps(start, Attempted(runs, 5), [Fill(JoinedDateField, today)]);
    success, error := true, None;
  }

  // ----- what the fill promises -----

  /** Fields are tried in the order Job Title, Job Category, Sub Unit,
      Location, Employment Status: when field `i` is the first that cannot be
      selected, its own message is returned and no later dropdown is touched. */
  lemma FirstFailureReported(job: JobInfo, form: JobForm, caseSensitive: bool, today: string, i: nat)
    requires i < |JobFields| && !Selected(job, form, caseSensitive, JobFields[i])
    requires forall j :: 0 <= j < i ==> Selected(job, form, caseSensitive, JobFields[j])
    ensures JobRun(job, form, caseSensitive, today).result == FillResult(false, Some(NotFoundMessage(job, JobFields[i])))
    ensures forall a, j :: a in JobRun(job, form, caseSensitive, today).actions && i < j < |JobFields|
                           ==> !Touches(a, FieldName(JobFields[j]))
  {
    var runs := Selections(job, form, caseSensitive);
    SelectedUpToAll(runs, i);
    JobRunOverAfter(job, runs, form.joinedDateShown, today, i);
    SelectionsKeepToOwnField(job, form, caseSensitive);
    AttemptedStaysOnFirstFields(runs, i + 1);
  }

  /** The joined date is written only when all five dropdowns were selected,
      and the fill succeeds exactly when that write happens. */
  lemma JoinedDateOnlyAfterAllSelected(job: JobInfo, form: JobForm, caseSensitive: bool, today: string)
    ensures var r := JobRun(job, form, caseSensitive, today);
            && (r.result.success <==> form.joinedDateShown
                                      && forall j :: 0 <= j < |JobFields| ==> Selected(job, form, caseSensitive, JobFields[j]))
            && (r.result.success <==> Fill(JoinedDateField, today) in r.actions)
            && (forall a :: a in r.actions && a.Fill? ==> r.result.success && a == Fill(JoinedDateField, today))
  {
    SelectionsKeepToOwnField(job, form, caseSensitive);
    JoinedDateOnlyAfterAll(job, Selections(job, form, caseSensitive), form.joinedDateShown, today);
  }

  /** JoinedDateOnlyAfterAllSelected, for any selections that keep to their
      own dropdowns. */
  lemma JoinedDateOnlyAfterAll(job: JobInfo, runs: JobField -> Run<bool>, joinedDateShown: bool, today: string)
    requires KeepsToOwnField(runs)
    ensures var r := JobRunOver(job, runs, joinedDateShown, today);
            && (r.result.success <==> joinedDateShown && forall j :: 0 <= j < |JobFields| ==> runs(JobFields[j]).result)
            && (r.result.success <==> Fill(JoinedDateField, today) in r.actions)
            && (forall a :: a in r.actions && a.Fill? ==> r.result.success && a == Fill(JoinedDateField, today))
  {
    var sel := SelectAll(runs, JobFields);
    SelectAllFindsFirstFailure(runs, JobFields);
    if sel.result.Some? {
      var k := sel.result.value;
      SelectedUpToAll(runs, k);
      JobRunOverAfter(job, runs, joinedDateShown, today, k);
      AttemptedStaysOnFirstFields(runs, k + 1);
    } else {
      SelectedUpToAll(runs, |JobFields|);
      JobRunOverAfter(job, runs, joinedDateShown, today, |JobFields|);
      AttemptedStaysOnFirstFields(runs, |JobFields|);
    }
  }

  /** Every message naming a field says "not found". */
  lemma NotFoundMessageSaysNotFound(job: JobInfo, f: JobField)
    ensures Contains(NotFoundMessage(job, f), "not found")
  {
    var head := match f
      case JobTitle => "Job title '" + job.jobTitle + "' "
      case JobCategory => "Job category '" + job.jobCategory + "' "
      case SubUnit => "Sub unit '" + job.subUnit + "' "
      case Location => "Location '" + job.location + "' "
      case EmploymentStatus => "Employment status '" + job.employmentStatus + "' ";
    assert NotFoundMessage(job, f) == head + "not found" + "";
    ContainsInside(head, "not found", "");
  }

  /** A failed fill always carries a message: a field's "not found" message,
      or the generic one when the joined-date input is missing; a successful
      fill carries none. */
  lemma FailuresCarryAMessage(job: JobInfo, form: JobForm, caseSensitive: bool, today: string)
    ensures var r := JobRun(job, form, caseSensitive, today).result;
            && (r.success ==> r.error.None?)
            && (!r.success ==> r.error.Some? && (Contains(r.error.value, "not found") || r.error.value == JobErrorMessage))
  {
    var sel := SelectAll(Selections(job, form, caseSensitive), JobFields);
    if sel.result.Some? {
      NotFoundMessageSaysNotFound(job, JobFields[sel.result.value]);
    }
  }
}
