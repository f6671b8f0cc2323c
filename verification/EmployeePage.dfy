/** The Add Employee page (`EmployeePage`): writing the names and the
    candidate id with its read-back check, saving with the toast and header
    waits, and reading back the id the application assigned. */
module EmployeePage {
  import opened Text
  import opened Driver

  const FirstNameField := "firstName"
  const MiddleNameField := "middleName"
  const LastNameField := "lastName"
  const EmpNumberMarker := "empNumber="

  /** What the driver finds on the Add Employee form: which inputs appear
      within the wait, and what the id input holds after the candidate id was
      injected (None when it has no `value` attribute). */
  datatype PersonalForm = PersonalForm(
    firstNameShown: bool,
    middleNameShown: bool,
    lastNameShown: bool,
    idFieldShown: bool,
    idReadBack: Option<string>)

  /** Whether FillEmployeeDetailsAsync ran to its end (true) or threw (false),
      and the actions it performed. */
  function FillRun(firstName: string, middleName: Option<string>, lastName: string, employeeId: string, form: PersonalForm): Run<bool> {
    if !form.firstNameShown then Run(false, [])
    else
      var first := [Fill(FirstNameField, firstName)];
      if !IsNullOrEmpty(middleName) && !form.middleNameShown then Run(false, first)
      else
        var names := if IsNullOrEmpty(middleName) then first else first + [Fill(MiddleNameField, middleName.value)];
        if !form.lastNameShown then Run(false, names)
        else if !form.idFieldShown then Run(false, names + [Fill(LastNameField, lastName)])
        else
          // a read-back that differs from the candidate is raised and rethrown
          Run(form.idReadBack == Some(employeeId), names + [Fill(LastNameField, lastName), InjectId(employeeId)])
  }

  method FillEmployeeDetails(driver: Browser, firstName: string, middleName: Option<string>, lastName: string,
                             employeeId: string, form: PersonalForm)
    returns (completed: bool)
    requires driver.Valid() && !driver.released
    modifies driver
    ensures driver.Valid() && !driver.released
    ensures completed == FillRun(firstName, middleName, lastName, employeeId, form).result
    ensures driver.trace == old(driver.trace) + FillRun(firstName, middleName, lastName, employeeId, form).actions
  {
    if !form.firstNameShown {
      return false;
    }
    driver.Perform(Fill(FirstNameField, firstName));
    if !IsNullOrEmpty(middleName) {
      if !form.middleNameShown {
        return false;
      }
      driver.Perform(Fill(MiddleNameField, middleName.value));
    }
    if !form.lastNameShown {
      return false;
    }
    driver.Perform(Fill(LastNameField, lastName));
    if !form.idFieldShown {
      return false;
    }
    driver.Perform(InjectId(employeeId));
    var valueAfterSet := form.idReadBack;
    if valueAfterSet != Some(employeeId) {
      return false;
    }
    completed := true;
  }

  /** The middle-name input is touched only when a non-empty middle name was
      given; the first and last names are written whenever the fill completes. */
  lemma MiddleNameOnlyWhenGiven(firstName: string, middleName: Option<string>, lastName: string, employeeId: string, form: PersonalForm)
    ensures var r := FillRun(firstName, middleName, lastName, employeeId, form);
            && (IsNullOrEmpty(middleName) ==> forall a :: a in r.actions ==> !Touches(a, MiddleNameField))
            && (r.result ==> Fill(FirstNameField, firstName) in r.actions && Fill(LastNameField, lastName) in r.actions)
            && (r.result && !IsNullOrEmpty(middleName) ==> Fill(MiddleNameField, middleName.value) in r.actions)
  {
  }

  /** The fill completes exactly when every input it needs appeared and the id
      input reads back the candidate; a mismatch is fatal, never retried: the
      candidate is injected once. */
  lemma ReadBackDecides(firstName: string, middleName: Option<string>, lastName: string, employeeId: string, form: PersonalForm)
    ensures var r := FillRun(firstName, middleName, lastName, employeeId, form);
            && (r.result <==> form.firstNameShown && (IsNullOrEmpty(middleName) || form.middleNameShown)
                              && form.lastNameShown && form.idFieldShown && form.idReadBack == Some(employeeId))
            && (forall i, j :: 0 <= i < j < |r.actions| && r.actions[i].InjectId? ==> !r.actions[j].InjectId?)
  {
  }

  /** What the driver finds after the Save click. */
  datatype SaveView = SaveView(
    saveButtonShown: bool,
    spinnerGone: bool,
    successToast: bool,
    personalDetailsHeader: bool)

  /** Whether SaveEmployeeAsync ran to its end, and its actions. */
  function SaveRun(view: SaveView): Run<bool> {
    if !view.saveButtonShown then Run(false, [])
    else if !view.spinnerGone then Run(false, [Submit, Await(SpinnerGone)])
    else
      // a missing success toast is logged and ignored
      Run(view.personalDetailsHeader, [Submit, Await(SpinnerGone), Await(SuccessToast), Await(PersonalDetailsHeader)])
  }

  method SaveEmployee(driver: Browser, view: SaveView) returns (completed: bool)
    requires driver.Valid() && !driver.released
    modifies driver
    ensures driver.Valid() && !driver.released
    ensures completed == SaveRun(view).result
    ensures driver.trace == old(driver.trace) + SaveRun(view).actions
  {
    if !view.saveButtonShown {
      return false;
    }
    driver.Perform(Submit);
    driver.Perform(Await(SpinnerGone));
    if !view.spinnerGone {
      return false;
    }
    var successToastAppeared := false;
    driver.Perform(Await(SuccessToast));
    if view.successToast {
      successToastAppeared := true;
    }
    driver.Perform(Await(PersonalDetailsHeader));
    if !view.personalDetailsHeader {
      return false;
    }
    completed := true;
  }

  /** Saving completes exactly when the button, the spinner's end and the
      Personal Details header were all seen; the success toast changes nothing. */
  lemma SaveIgnoresSuccessToast(view: SaveView)
    ensures SaveRun(view).result <==> view.saveButtonShown && view.spinnerGone && view.personalDetailsHeader
    ensures SaveRun(view) == SaveRun(view.(successToast := !view.successToast))
  {
  }

  /** What the employee-id input yields when it is consulted. */
  datatype IdField =
      /** The input did not appear within the wait; the time-out is caught. */
    | IdFieldMissing
      /** The input's `value` attribute, None when absent. */
    | IdFieldValue(value: Option<string>)

  /** GetEmployeeIdAsync: the digits after the leftmost `empNumber=` that is
      followed by a digit, else the id input's value, else "". */
  function GetEmployeeId(url: string, field: IdField): (id: string)
    ensures (exists j: nat :: DigitsFollowAt(url, EmpNumberMarker, j)) ==>
              id != [] && forall k :: 0 <= k < |id| ==> IsDigit(id[k])
    ensures (forall j: nat :: !DigitsFollowAt(url, EmpNumberMarker, j)) && field.IdFieldMissing? ==> id == []
  {
    match FindDigitsAfter(url, EmpNumberMarker, 0)
    case Some(i) => DigitRun(url, i + |EmpNumberMarker|)
    case None =>
      match field
      case IdFieldMissing => ""
      case IdFieldValue(v) => if v.Some? then v.value else ""
  }

  /** When the URL carries `empNumber=` followed by a digit, the id is the
      whole digit run after the leftmost such occurrence, whatever the input holds. */
  lemma IdFromUrl(url: string, field: IdField, i: nat)
    requires i <= |url| && DigitsFollowAt(url, EmpNumberMarker, i)
    requires forall j :: 0 <= j < i ==> !DigitsFollowAt(url, EmpNumberMarker, j)
    ensures var id := GetEmployeeId(url, field);
            && id != []
            && (forall k :: 0 <= k < |id| ==> IsDigit(id[k]))
            && OccursAt(url, id, i + |EmpNumberMarker|)
            && (i + |EmpNumberMarker| + |id| == |url| || !IsDigit(url[i + |EmpNumberMarker| + |id|]))
  {
    assert FindDigitsAfter(url, EmpNumberMarker, 0) == Some(i);
    var id := GetEmployeeId(url, field);
    assert id[0] == url[i + |EmpNumberMarker|];
  }

  /** Without such an occurrence the id is the input's value, or "" when the
      value is absent or the input never appeared. */
  lemma IdFromFieldOtherwise(url: string, field: IdField)
    requires forall j: nat :: !DigitsFollowAt(url, EmpNumberMarker, j)
    ensures GetEmployeeId(url, field) == match field
                                         case IdFieldMissing => ""
                                         case IdFieldValue(v) => if v.Some? then v.value else ""
  {
  }
}
