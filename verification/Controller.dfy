/** `OrangeHrmController`: the request checks made before the service is
    called, and the mapping of the service's `(success, result, error)` triple
    to an HTTP status and response body. The service's result is an input:
    when a check fails the service is not called, so the response cannot
    depend on it. */
module Controller {
  import opened Text
  import opened Outcomes
  import opened Models

  /** The status code and the `ApiResponse` body: Success, Data (the
      employee id or the claim's reference id) and ErrorMessage. */
  datatype ApiResponse = ApiResponse(status: nat, success: bool, data: Option<string>, errorMessage: Option<string>)

  const NamesRequiredMessage := "FirstName and LastName are required"
  const EmployeeRequiredMessage := "Either EmployeeId or EmployeeName must be provided"
  const EventCurrencyRequiredMessage := "Event and Currency are required"

  function BadRequest(message: string): ApiResponse {
    ApiResponse(400, false, None, Some(message))
  }

  function Ok(data: Option<string>): ApiResponse {
    ApiResponse(200, true, data, None)
  }

  function ServerError(): ApiResponse {
    ApiResponse(500, false, None, Some(InternalErrorMessage))
  }

  /** The service's error, when there is one, contains `sub`. */
  predicate ErrorSays(result: Outcome, sub: string) {
    result.error.Some? && Contains(result.error.value, sub)
  }

  /** The AddEmployee action. */
  function AddEmployee(request: AddEmployeeRequest, service: Outcome): (r: ApiResponse)
    ensures r.status in {200, 400, 409, 500}
    ensures r.success <==> r.status == 200
    ensures r.success ==> service.success && r.data == service.value && r.errorMessage.None?
    ensures !r.success ==> r.data.None? && r.errorMessage.Some?
  {
    if IsBlank(request.firstName) || IsBlank(request.lastName) then BadRequest(NamesRequiredMessage)
    else if !service.success then
      if ErrorSays(service, "already exists") then ApiResponse(409, false, None, service.error)
      else if ErrorSays(service, "not found") then ApiResponse(400, false, None, service.error)
      else ServerError()
    else Ok(service.value)
  }

  /** The CreateClaim action. */
  function CreateClaim(request: CreateClaimRequest, service: Outcome): (r: ApiResponse)
    ensures r.status in {200, 400, 500}
    ensures r.success <==> r.status == 200
    ensures r.success ==> service.success && r.data == service.value && r.errorMessage.None?
    ensures !r.success ==> r.data.None? && r.errorMessage.Some?
  {
    if IsNullOrWhiteSpace(request.employeeId) && IsNullOrWhiteSpace(request.employeeName) then
      BadRequest(EmployeeRequiredMessage)
    else if IsBlank(request.event) || IsBlank(request.currency) then BadRequest(EventCurrencyRequiredMessage)
    else if !service.success then
      if ErrorSays(service, "not found") then ApiResponse(400, false, None, service.error)
      else ServerError()
    else Ok(service.value)
  }

  /** A blank first or last name is answered with 400 and its message
      whatever the service would have returned: the service is not called. */
  lemma AddEmployeeNamesChecked(request: AddEmployeeRequest, service: Outcome, other: Outcome)
    requires IsBlank(request.firstName) || IsBlank(request.lastName)
    ensures AddEmployee(request, service) == BadRequest(NamesRequiredMessage)
    ensures AddEmployee(request, service) == AddEmployee(request, other)
  {
  }

  /** Past the check, a failure whose error contains "already exists" is a
      409 carrying that error, even when it also contains "not found"; one
      containing "not found" only is a 400 carrying it; any other failure,
      a missing error included, is a 500 with the generic message. */
  lemma AddEmployeeFailureStatus(request: AddEmployeeRequest, service: Outcome)
    requires !IsBlank(request.firstName) && !IsBlank(request.lastName) && !service.success
    ensures var r := AddEmployee(request, service);
            && !r.success && r.data.None?
            && (r.status == 409 <==> ErrorSays(service, "already exists"))
            && (r.status == 400 <==> !ErrorSays(service, "already exists") && ErrorSays(service, "not found"))
            && (r.status == 500 <==> !ErrorSays(service, "already exists") && !ErrorSays(service, "not found"))
            && (r.status != 500 ==> r.errorMessage == service.error)
            && (r.status == 500 ==> r.errorMessage == Some(InternalErrorMessage))
  {
  }

  /** The claim checks come in order: with neither an id nor a name the
      answer is the employee message, whatever the event and currency; then
      a blank event or currency; in both cases the service is not called. */
  lemma CreateClaimChecksInOrder(request: CreateClaimRequest, service: Outcome, other: Outcome)
    ensures IsNullOrWhiteSpace(request.employeeId) && IsNullOrWhiteSpace(request.employeeName) ==>
              CreateClaim(request, service) == BadRequest(EmployeeRequiredMessage)
    ensures !(IsNullOrWhiteSpace(request.employeeId) && IsNullOrWhiteSpace(request.employeeName))
            && (IsBlank(request.event) || IsBlank(request.currency)) ==>
              CreateClaim(request, service) == BadRequest(EventCurrencyRequiredMessage)
    ensures (IsNullOrWhiteSpace(request.employeeId) && IsNullOrWhiteSpace(request.employeeName))
            || IsBlank(request.event) || IsBlank(request.currency) ==>
              CreateClaim(request, service) == CreateClaim(request, other)
  {
  }

  /** A claim failure is never a conflict: "not found" is a 400 carrying the
      error, anything else a 500 with the generic message. */
  lemma CreateClaimFailureStatus(request: CreateClaimRequest, service: Outcome)
    ensures CreateClaim(request, service).status in {200, 400, 500}
    ensures !IsNullOrWhiteSpace(request.employeeId) || !IsNullOrWhiteSpace(request.employeeName) ==>
              !IsBlank(request.event) && !IsBlank(request.currency) && !service.success ==>
                var r := CreateClaim(request, service);
                && !r.success && r.data.None?
                && (r.status == 400 <==> ErrorSays(service, "not found"))
                && (r.status == 400 ==> r.errorMessage == service.error)
                && (r.status == 500 ==> r.errorMessage == Some(InternalErrorMessage))
  {
  }

  /** Past the checks, a successful service call is a 200 whose data is the
      service's result unchanged, and only a successful call is. */
  lemma SuccessPassesResult(employee: AddEmployeeRequest, claim: CreateClaimRequest, service: Outcome)
    ensures !IsBlank(employee.firstName) && !IsBlank(employee.lastName) ==>
              (AddEmployee(employee, service).success <==> service.success)
              && (service.success ==> AddEmployee(employee, service) == Ok(service.value))
    ensures !(IsNullOrWhiteSpace(claim.employeeId) && IsNullOrWhiteSpace(claim.employeeName))
            && !IsBlank(claim.event) && !IsBlank(claim.currency) ==>
              (CreateClaim(claim, service).success <==> service.success)
              && (service.success ==> CreateClaim(claim, service) == Ok(service.value))
  {
  }

  /** Every response is a success with status 200 and no message, or a
      failure with status 400, 409 or 500, no data and a message. */
  lemma ResponsesWellFormed(employee: AddEmployeeRequest, claim: CreateClaimRequest, service: Outcome)
    requires WellFormed(service)
    ensures var r := AddEmployee(employee, service);
            (r.success <==> r.status == 200) && (r.success ==> r.data.Some? && r.errorMessage.None?)
            && (!r.success ==> r.status in {400, 409, 500} && r.data.None? && r.errorMessage.Some?)
    ensures var r := CreateClaim(claim, service);
            (r.success <==> r.status == 200) && (r.success ==> r.data.Some? && r.errorMessage.None?)
            && (!r.success ==> r.status in {400, 500} && r.data.None? && r.errorMessage.Some?)
  {
  }
}
