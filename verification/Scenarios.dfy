/** Requests followed from the controller through the service: which status
    each kind of failure ends in. */
module Scenarios {
  import opened Text
  import opened Outcomes
  import opened Models
  import opened Repository
  import JobPage
  import Dropdown
  import AssignClaimPage
  import Service
  import Controller

  /** The generic job-page error mentions neither "already exists" nor
      "not found". */
  lemma JobErrorMessageIsGeneric()
    ensures !Contains(JobPage.JobErrorMessage, "already exists")
    ensures !Contains(JobPage.JobErrorMessage, "not found")
  {
    var m := JobPage.JobErrorMessage;
    assert forall i :: 0 <= i < |m| ==> m[i] != 'y' && m[i] != 'u';
    assert "already exists"[6] == 'y' && "not found"[6] == 'u';
    MissingCharacter(m, "already exists", 6);
    MissingCharacter(m, "not found", 6);
  }

  /** The service's message for a request naming no employee does not
      mention "not found". */
  lemma NoEmployeeMessageIsGeneric()
    ensures !Contains(Service.NoEmployeeMessage, "not found")
  {
    NoEmployeeMessageParts();
    LacksLetterF();
    assert "not found"[4] == 'f';
    MissingCharacter(Service.NoEmployeeMessage, "not found", 4);
  }

  /** The message, cut into three literal pieces. */
  lemma NoEmployeeMessageParts()
    ensures Service.NoEmployeeMessage == "Either employeeId" + " or employeeName" + " must be provided"
  {
  }

  /** None of those pieces holds the letter 'f'. */
  lemma LacksLetterF()
    ensures 'f' !in "Either employeeId" && 'f' !in " or employeeName" && 'f' !in " must be provided"
  {
  }

  /** An employee whose names are already stored, with the duplicate check
      on, is answered 409 with the duplicate message. */
  lemma DuplicateEmployeeIsConflict(settings: Settings, employees: map<string, Employee>, request: AddEmployeeRequest,
                                    candidate: string, scene: Service.AddEmployeeScene)
    requires FiledById(employees)
    requires Service.DuplicateCheckApplies(settings)
    requires NameTaken(employees, request.firstName, request.middleName, request.lastName)
    requires !IsBlank(request.firstName) && !IsBlank(request.lastName)
    ensures var service := Service.AddEmployeePlan(settings, employees, request, candidate, scene).outcome;
            Controller.AddEmployee(request, service) == Controller.ApiResponse(409, false, None, Some(Service.DuplicateMessage))
  {
    assert Service.DuplicateMessage == "Employee with the same name " + "already exists" + "";
    ContainsInside("Employee with the same name ", "already exists", "");
  }

  /** A job-page failure is answered with its own message (409 or 400) when
      that message names a field, and with a 500 exactly when it is the
      generic job error. */
  lemma JobFailureStatus(settings: Settings, employees: map<string, Employee>, request: AddEmployeeRequest,
                         candidate: string, scene: Service.AddEmployeeScene)
    requires FiledById(employees)
    requires !IsBlank(request.firstName) && !IsBlank(request.lastName)
    requires Service.AddEmployeePlan(settings, employees, request, candidate, scene).session.Some?
    requires Service.AddEmployeeSteps(request, candidate, settings.caseSensitiveValidation, scene).result.JobRejected?
    ensures var error := Service.AddEmployeeSteps(request, candidate, settings.caseSensitiveValidation, scene).result.error;
            var r := Controller.AddEmployee(request, Service.AddEmployeePlan(settings, employees, request, candidate, scene).outcome);
            && (r.status == 500 <==> error == Some(JobPage.JobErrorMessage))
            && (r.status != 500 ==> r.status in {400, 409} && r.errorMessage == error)
  {
    JobPage.FailuresCarryAMessage(request.job, scene.job, settings.caseSensitiveValidation, scene.today);
    JobErrorMessageIsGeneric();
  }

  /** A claim naming an employee id the database does not hold is answered
      400 with a message naming that id. */
  lemma UnknownEmployeeIdIsBadRequest(settings: Settings, employees: map<string, Employee>, request: CreateClaimRequest,
                                      scene: Service.ClaimScene)
    requires FiledById(employees)
    requires settings.useSqlite && request.employeeId.Some? && !IsBlank(request.employeeId.value)
    requires FindById(employees, request.employeeId.value).None?
    requires !IsBlank(request.event) && !IsBlank(request.currency)
    ensures var service := Service.CreateClaimPlan(settings, employees, request, scene).outcome;
            Controller.CreateClaim(request, service)
              == Controller.ApiResponse(400, false, None, Some(Service.UnknownIdMessage(request.employeeId.value)))
  {
    var id := request.employeeId.value;
    assert Service.UnknownIdMessage(id) == "Employee with ID '" + id + "' " + "not found" + "";
    ContainsInside("Employee with ID '" + id + "' ", "not found", "");
  }

  /** With the database off, a claim naming only an employee id passes the
      controller's check but the service rejects it, and the answer is a 500
      with the generic message rather than a 400. */
  lemma IdOnlyClaimWithoutDatabaseIsServerError(settings: Settings, employees: map<string, Employee>,
                                                request: CreateClaimRequest, scene: Service.ClaimScene)
    requires FiledById(employees)
    requires !settings.useSqlite && request.employeeName.None?
    requires request.employeeId.Some? && !IsBlank(request.employeeId.value)
    requires !IsBlank(request.event) && !IsBlank(request.currency)
    ensures var service := Service.CreateClaimPlan(settings, employees, request, scene).outcome;
            && service == Failed(Service.NoEmployeeMessage)
            && Controller.CreateClaim(request, service) == Controller.ServerError()
  {
    NoEmployeeMessageIsGeneric();
  }

  /** A claim whose event is not offered is answered 400 with the event's
      message. */
  lemma UnknownEventIsBadRequest(settings: Settings, employees: map<string, Employee>, request: CreateClaimRequest,
                                 scene: Service.ClaimScene)
    requires FiledById(employees)
    requires !(IsNullOrWhiteSpace(request.employeeId) && IsNullOrWhiteSpace(request.employeeName))
    requires !IsBlank(request.event) && !IsBlank(request.currency)
    requires Service.ResolveEmployeeName(settings.useSqlite, employees, request).Resolved?
    requires scene.sessionStarts && scene.loggedIn && scene.claimPageReached
    requires scene.form.nameFieldShown && scene.form.suggestions > 0
    requires !Dropdown.SelectionRun(AssignClaimPage.EventField, scene.form.event, request.event, settings.caseSensitiveValidation).result
    ensures var service := Service.CreateClaimPlan(settings, employees, request, scene).outcome;
            Controller.CreateClaim(request, service)
              == Controller.ApiResponse(400, false, None, Some(AssignClaimPage.EventNotFoundMessage(request.event)))
  {
    var e := request.event;
    assert AssignClaimPage.EventNotFoundMessage(e) == "Event '" + e + "' " + "not found" + "";
    ContainsInside("Event '" + e + "' ", "not found", "");
  }
}
