# OrangeHRM automation API — decision logic

The OrangeHRM automation API adds employees and creates expense claims in
an OrangeHRM web application by driving a browser. This project models the
decisions that sit under the browser calls, with the browser replaced by
records of what each wait and read-back observes:

- **Dropdown option resolution** (`SelectDropdownOptionAsync`, which appears
  twice with the same code). Options are scanned in display order. Trimmed
  text is compared by ordinal or ordinal-ignore-case equality. The first
  match is clicked. When nothing matches, the page body is clicked to close
  the list.
- **The Job tab** (`ValidateAndFillJobDetailsAsync`). Five dropdowns are
  tried in a fixed order and the first failure is reported with that
  field's message. The joined date is written last.
- **The Add Employee page**:
  - the names are written;
  - the candidate id is injected and read back, and a mismatch is fatal;
  - on save, a missing success toast is ignored but the Personal Details
    header is required;
  - the id the application assigned is read from `empNumber=` in the URL,
    with the id input as a fallback.
- **The Assign Claim page**. The steps run in this order:
  - the employee typeahead, where the first suggestion is picked;
  - the Event dropdown, then the Currency dropdown;
  - optional remarks;
  - the Create click;
  - the success-toast / error-toast / dialog / URL cascade;
  - the trimmed reference id.
- **The service** (`OrangeHrmService`):
  - the duplicate gate, which runs only when two settings allow it;
  - the browser session, created after the gate and quit and disposed on
    every path;
  - the page flows in order;
  - persistence of the read-back id only after every step succeeded;
  - the claim's name resolution, by id or by name;
  - the seven-character candidate id.
- **The controller** (`OrangeHrmController`). The request checks come first.
  The service's `(success, result, error)` triple is then mapped to an HTTP
  status: 200, 400, 409 or 500.

The browser is `Driver.Browser`, a class whose fields the flows update in
place:

- `trace`, the ordered actions performed;
- `dropdownOpen`, whether a dropdown list is open;
- `released`, whether the session was quit and disposed.

Each page method is a `method` over that class. Its contract ties the
result and the new trace to a pure `…Run` function of the observations.
The properties are lemmas about those functions. The employee store is
`Repository.EmployeeRepository`, a class holding a map keyed by EmployeeId,
which the database keeps unique (`OrangeHrmApi/Data/EmployeeContext.cs`,
line 17). The random source of the id generator is a parameter `draw`, which
gives the index of each draw, a number below 62. The controller's actions
are total functions of the request and the service's triple.

Modules, one per file:

| module | what it holds |
|---|---|
| `Text` | .NET string primitives: white space, `Trim`, case-insensitive equality, `Contains`, digit scanning |
| `Outcomes` | the outcome triple |
| `Models` | settings and request payloads |
| `Driver` | the browser session |
| `Dropdown` | the shared dropdown search |
| `JobPage` | the Job tab |
| `EmployeePage` | the Add Employee page |
| `AssignClaimPage` | the Assign Claim page |
| `Repository` | the employee store |
| `Service` | `OrangeHrmService` |
| `Controller` | `OrangeHrmController` |
| `Scenarios` | requests followed from the controller through the service |

## Model

Source paths are relative to the repository root.

| member | source | states |
|---|---|---|
| Text.TrimShape | OrangeHrmApi/Services/Pages/AssignClaimPage.cs:199 | the trimmed text is no longer than the input and has no white space at either end; it is empty exactly when the input is all white space; it is the input itself when the input has no white space at either end |
| Text.EqualsIgnoreCasePointwise | OrangeHrmApi/Services/Pages/JobPage.cs:113 | ordinal-ignore-case equality holds exactly when both strings have the same length and agree at every position after upper-casing |
| Text.FindDigitsAfter | OrangeHrmApi/Services/Pages/EmployeePage.cs:132 | the position found is the leftmost one where the marker is followed by a digit; when none is found, no such position exists |
| Text.DigitRun | OrangeHrmApi/Services/Pages/EmployeePage.cs:132-135 | the greedy `\d+` capture: a slice of the input made only of digits and followed by a non-digit or by the end |
| Driver.Browser.QuitAndDispose | OrangeHrmApi/Services/OrangeHrmService.cs:99-103 | the session is released and its trace is left unchanged |
| Dropdown.FirstMatchFromSpec | OrangeHrmApi/Services/Pages/JobPage.cs:108-121 | the index found matches and no earlier option does; when no index is found, no option matches |
| Dropdown.ScanOptions | OrangeHrmApi/Services/Pages/JobPage.cs:108-122 | the loop clicks the first matching option within reach and returns its index, having read exactly the options up to it; otherwise it reads every reachable option and clicks nothing |
| Dropdown.SelectDropdownOption | OrangeHrmApi/Services/Pages/JobPage.cs:96-135 | the result and the actions performed are those of the selection's run |
| Dropdown.SelectedIffSomeOptionMatches | OrangeHrmApi/Services/Pages/JobPage.cs:108-128 | a selection succeeds if and only if the list appeared and a reachable option's trimmed text equals the wanted text; without a fault, that is if and only if some option matches |
| Dropdown.ClicksFirstMatch | OrangeHrmApi/Services/Pages/JobPage.cs:115-120 | the only option clicked matches, and every earlier option does not |
| Dropdown.ExaminesNothingAfterFirstMatch | OrangeHrmApi/Services/Pages/JobPage.cs:108-121 | an option is read only when every earlier option failed to match |
| Dropdown.LeftOpenOnlyByFault | OrangeHrmApi/Services/Pages/JobPage.cs:124-134 | after a selection the list is open if and only if it failed and a fault interrupted the scan; a clean miss clicks the body and closes it |
| Dropdown.CaseOnlyDifference | OrangeHrmApi/Services/Pages/JobPage.cs:111-113 | when the trimmed option text and the wanted text have the same length, differ, and agree at every position once ASCII letters are upper-cased, the option matches when case is ignored and does not match otherwise |
| Dropdown.SelectionStaysOnField | OrangeHrmApi/Services/Pages/JobPage.cs:102-127 | every action of a selection concerns its own dropdown or the page body |
| JobPage.SelectAllFindsFirstFailure | OrangeHrmApi/Services/Pages/JobPage.cs:47-68 | the fields are tried in order and the scan stops at the first that cannot be selected, every field before it having been selected; it reports none only when every field was selected |
| JobPage.JobRunOverAfter | OrangeHrmApi/Services/Pages/JobPage.cs:47-76 | when the first k fields were selected and field k was not, the fill fails with field k's message after exactly the first k+1 selections; when all five were selected, it writes the joined date or fails with the generic error |
| JobPage.AttemptedStaysOnFirstFields | OrangeHrmApi/Services/Pages/JobPage.cs:47-68 | the first k selections write no input and touch none of the later dropdowns |
| JobPage.SelectionsKeepToOwnField | OrangeHrmApi/Services/Pages/JobPage.cs:96-128 | each of the five selections writes no input and touches no other field's dropdown |
| JobPage.SelectField | OrangeHrmApi/Services/Pages/JobPage.cs:47 | selecting one field performs that field's selection run and reports its outcome |
| JobPage.SelectStep | OrangeHrmApi/Services/Pages/JobPage.cs:47-68 | once the first k fields were selected, selecting field k either extends the selected prefix or ends the fill with field k's message and the fill's complete actions |
| JobPage.ValidateAndFillJobDetails | OrangeHrmApi/Services/Pages/JobPage.cs:41-83 | the `(success, error)` pair and the actions performed are those of the job run |
| JobPage.FirstFailureReported | OrangeHrmApi/Services/Pages/JobPage.cs:47-68 | when field i is the first that cannot be selected, the fill returns field i's message and no later dropdown is touched |
| JobPage.JoinedDateOnlyAfterAllSelected | OrangeHrmApi/Services/Pages/JobPage.cs:67-76 | the fill succeeds if and only if all five dropdowns were selected and the joined-date input exists, if and only if the joined date was written; it is the only input written |
| JobPage.JoinedDateOnlyAfterAll | OrangeHrmApi/Services/Pages/JobPage.cs:67-76 | the same, for any selections that keep to their own dropdowns |
| JobPage.NotFoundMessageSaysNotFound | OrangeHrmApi/Services/Pages/JobPage.cs:48-68 | every field's failure message contains "not found" |
| JobPage.FailuresCarryAMessage | OrangeHrmApi/Services/Pages/JobPage.cs:45-82 | a success carries no error; a failure carries a "not found" message or the generic "Error filling job details" |
| EmployeePage.FillEmployeeDetails | OrangeHrmApi/Services/Pages/EmployeePage.cs:43-87 | whether the fill completed and the actions performed are those of the fill run |
| EmployeePage.MiddleNameOnlyWhenGiven | OrangeHrmApi/Services/Pages/EmployeePage.cs:47-60 | the middle-name input is touched only when a non-empty middle name was given; a completed fill wrote the first and last names, and the middle name when given |
| EmployeePage.ReadBackDecides | OrangeHrmApi/Services/Pages/EmployeePage.cs:62-83 | the fill completes if and only if every input it needs appeared and the id input reads back the candidate; the candidate is injected at most once |
| EmployeePage.SaveEmployee | OrangeHrmApi/Services/Pages/EmployeePage.cs:89-124 | whether saving completed and the actions performed are those of the save run |
| EmployeePage.SaveIgnoresSuccessToast | OrangeHrmApi/Services/Pages/EmployeePage.cs:97-121 | saving completes if and only if the button, the spinner's end and the Personal Details header were seen; the success toast changes nothing |
| EmployeePage.IdFromUrl | OrangeHrmApi/Services/Pages/EmployeePage.cs:131-136 | when `empNumber=` followed by a digit occurs, the id is the maximal digit run after its leftmost such occurrence, whatever the id input holds |
| EmployeePage.IdFromFieldOtherwise | OrangeHrmApi/Services/Pages/EmployeePage.cs:138-145 | otherwise the id is the input's value, or "" when the value is absent or the input never appeared |
| EmployeePage.GetEmployeeId | OrangeHrmApi/Services/Pages/EmployeePage.cs:127-146 | when `empNumber=` followed by a digit occurs in the URL, the id is a non-empty run of digits; with no such occurrence and no id input, it is "" (IdFromUrl and IdFromFieldOtherwise state the rest) |
| AssignClaimPage.AwaitConfirmation | OrangeHrmApi/Services/Pages/AssignClaimPage.cs:88-144 | the outcome and the waits performed after the Create click are those of the confirmation run |
| AssignClaimPage.SubmitClaim | OrangeHrmApi/Services/Pages/AssignClaimPage.cs:78-144 | the outcome and the actions from the remarks to the reference id are those of the submit run |
| AssignClaimPage.CreateClaim | OrangeHrmApi/Services/Pages/AssignClaimPage.cs:45-151 | the outcome triple and the actions performed are those of the claim run |
| AssignClaimPage.ReferenceIdIsTrimmed | OrangeHrmApi/Services/Pages/AssignClaimPage.cs:193-217 | the reference id is missing exactly when its input never appeared; otherwise it is the trimmed value, empty exactly when the value is absent or blank, with no white space at either end |
| AssignClaimPage.ExtractReferenceId | OrangeHrmApi/Services/Pages/AssignClaimPage.cs:193-217 | no reference exactly when the input never appeared; a non-empty reference has no white space at either end (ReferenceIdIsTrimmed states the rest) |
| AssignClaimPage.ClaimDetailUrlIgnoresCase | OrangeHrmApi/Services/Pages/AssignClaimPage.cs:124 | addresses that agree once ASCII letters are upper-cased are accepted or refused together by the URL wait |
| AssignClaimPage.ClaimDetailUrlAccepted | OrangeHrmApi/Services/Pages/AssignClaimPage.cs:124 | an address holding the claim-detail prefix, in any letter case, followed by a digit is accepted, whatever comes before or after |
| AssignClaimPage.NoSuggestionStopsEarly | OrangeHrmApi/Services/Pages/AssignClaimPage.cs:57-66 | with no suggestion, the claim fails with a message naming the employee, after typing the name and before any dropdown or click |
| AssignClaimPage.ConfirmationOnlyWaits | OrangeHrmApi/Services/Pages/AssignClaimPage.cs:88-137 | every action after the Create click is a wait |
| AssignClaimPage.OnlyFirstSuggestionPicked | OrangeHrmApi/Services/Pages/AssignClaimPage.cs:57-62 | any suggestion picked is the first; one is picked if and only if the name input appeared and offered a suggestion |
| AssignClaimPage.PickedOnceAfterTyping | OrangeHrmApi/Services/Pages/AssignClaimPage.cs:52-62 | with a suggestion offered, the flow types the name, picks suggestion 0, and picks nothing after that |
| AssignClaimPage.PickedOnceOver | OrangeHrmApi/Services/Pages/AssignClaimPage.cs:52-86 | the same, for any selections and submit step that pick no suggestion themselves |
| AssignClaimPage.EventBeforeCurrency | OrangeHrmApi/Services/Pages/AssignClaimPage.cs:68-69 | when the event is not selected, the claim fails with the event's message and the Currency dropdown, the remarks and the Create button are never touched |
| AssignClaimPage.CurrencyFailureReported | OrangeHrmApi/Services/Pages/AssignClaimPage.cs:73-74 | when the event is selected but the currency is not, the claim fails with the currency's message and nothing is written to the remarks or submitted |
| AssignClaimPage.RemarksOnlyWhenGiven | OrangeHrmApi/Services/Pages/AssignClaimPage.cs:78-83 | the remarks input is touched only when non-empty remarks were given, and only to write those remarks; a submitted claim with remarks wrote them |
| AssignClaimPage.SubmitWritesGivenRemarks | OrangeHrmApi/Services/Pages/AssignClaimPage.cs:78-86 | the same, for the submit step alone |
| AssignClaimPage.SubmittedIffEverythingFilled | OrangeHrmApi/Services/Pages/AssignClaimPage.cs:57-86 | the Create button is clicked if and only if a suggestion was picked, both dropdowns were selected, any remarks could be written and the button appeared |
| AssignClaimPage.ErrorToastShortCircuits | OrangeHrmApi/Services/Pages/AssignClaimPage.cs:90-109 | an error toast without a success toast fails the claim with no dialog or URL wait; a success toast means the error toast is never awaited, and without one it always is |
| AssignClaimPage.ConfirmationDecides | OrangeHrmApi/Services/Pages/AssignClaimPage.cs:88-144 | after the click, the claim succeeds if and only if no lone error toast appeared, the URL matched and a non-blank reference id was read, and it returns that id; a missed URL gives the navigation message whatever the toasts did |
| AssignClaimPage.ConfirmationWellFormed | OrangeHrmApi/Services/Pages/AssignClaimPage.cs:88-150 | the confirmation's outcome is a well-formed triple; a success carries a non-empty trimmed id and a failure one of four fixed messages |
| AssignClaimPage.ClaimOutcomeWellFormed | OrangeHrmApi/Services/Pages/AssignClaimPage.cs:45-151 | every claim outcome is `(true, id, null)` with a non-empty trimmed id after a Create click, or `(false, null, message)` with one of the page's seven messages |
| Repository.FullName | OrangeHrmApi/Services/OrangeHrmService.cs:122 | the display name starts with the first name and a space and ends with a space and the last name; it is exactly one character longer than the two names together when there is no middle name |
| Repository.FindById | OrangeHrmApi/Services/OrangeHrmService.cs:115-121 | a record is found if and only if a stored record has that EmployeeId, and the one found has it |
| Repository.EmployeeRepository.GetByEmployeeId | OrangeHrmApi/Services/OrangeHrmService.cs:117 | a record is returned if and only if a stored record has that EmployeeId, and the one returned is stored and has it |
| Repository.EmployeeRepository.HasEmployeeNamed | OrangeHrmApi/Services/OrangeHrmService.cs:38-39 | true if and only if some stored record has exactly the given first, middle and last names, a missing middle name matching only a missing one |
| Repository.EmployeeRepository.Add | OrangeHrmApi/Services/OrangeHrmService.cs:80-89 | the record is stored if and only if its EmployeeId is not taken; otherwise the unique index refuses it and the store is unchanged |
| Service.AlphabetAt | OrangeHrmApi/Services/OrangeHrmService.cs:187 | the alphabet has 62 characters, and position k holds the k-th of the capitals, then the small letters, then the digits |
| Service.AlphabetExactlyAlphanumerics | OrangeHrmApi/Services/OrangeHrmService.cs:187 | the alphabet holds only ASCII letters and digits, and every one of them |
| Service.CandidateIdShape | OrangeHrmApi/Services/OrangeHrmService.cs:185-197 | every candidate id has exactly seven characters, each an ASCII letter or digit |
| Service.EveryCandidateReachable | OrangeHrmApi/Services/OrangeHrmService.cs:185-197 | every seven-character string of ASCII letters and digits is produced by some sequence of draws |
| Service.GenerateEmployeeId | OrangeHrmApi/Services/OrangeHrmService.cs:185-197 | the loop builds the candidate of the given draws: seven ASCII letters or digits |
| Service.OrangeHrmService.RunAddEmployeeSteps | OrangeHrmApi/Services/OrangeHrmService.cs:54-77 | the progress and the actions from login to saving the job are those of the add-employee steps |
| Service.OrangeHrmService.AddEmployee | OrangeHrmApi/Services/OrangeHrmService.cs:29-104 | the triple is the plan's outcome; a session exists exactly when the plan has one, and it is then fresh, released and holds the plan's actions; the store gains exactly the plan's record |
| Service.OrangeHrmService.RunClaimSteps | OrangeHrmApi/Services/OrangeHrmService.cs:138-144 | the page outcome and the actions from login to the claim page's end are those of the claim steps |
| Service.OrangeHrmService.CreateClaim | OrangeHrmApi/Services/OrangeHrmService.cs:106-164 | the triple is the plan's outcome; a session exists exactly when the plan has one, and it is then fresh, released and holds the plan's actions |
| Service.DuplicateGate | OrangeHrmApi/Services/OrangeHrmService.cs:37-49 | the call ends with the duplicate message and no browser if and only if the gate applies and a record has the same names; when the gate does not apply, a browser is started unless it fails to start |
| Service.SessionOnlyPastGate | OrangeHrmApi/Services/OrangeHrmService.cs:37-49 | a session exists if and only if the gate let the call through and the browser started; without one nothing is stored and the call fails |
| Service.PersistOnlyAfterSuccess | OrangeHrmApi/Services/OrangeHrmService.cs:66-92 | a record is stored only when the database is in use and every step completed; it carries the read-back id, which the call returns; a successful call with the database in use stored it |
| Service.BrowserFailuresReported | OrangeHrmApi/Services/OrangeHrmService.cs:71-98 | a job-validation failure is returned with its error unchanged and nothing stored; any exception becomes "Internal server error" with nothing stored |
| Service.CompletedMeansEveryPageSucceeded | OrangeHrmApi/Services/OrangeHrmService.cs:54-77 | completed steps mean the fill read back the candidate, saving and the job fill succeeded, the candidate was injected and the job was saved |
| Service.ReadBackMismatchStops | OrangeHrmApi/Services/Pages/EmployeePage.cs:70-83 | a read-back that differs from the candidate ends the steps with an exception, before the Save click and the Job tab |
| Service.AddEmployeeOutcomeWellFormed | OrangeHrmApi/Services/OrangeHrmService.cs:29-98 | every add-employee result is `(true, id, null)` or `(false, null, message)` |
| Service.NameResolutionOrder | OrangeHrmApi/Services/OrangeHrmService.cs:113-132 | the name is looked up by id when the database is in use and an id was given, where an unknown id gives a message naming it; else the given name is used; else the call is rejected; it is rejected exactly in the two failing cases |
| Service.ResolveEmployeeName | OrangeHrmApi/Services/OrangeHrmService.cs:113-132 | a resolved name is never empty and, unless it came from the database, is the name given; a rejection carries the no-employee message or the unknown-id message naming the id (NameResolutionOrder states the order) |
| Service.RejectedNameStartsNoBrowser | OrangeHrmApi/Services/OrangeHrmService.cs:113-134 | a session exists if and only if the name was resolved and the browser started; a rejection is returned as the failure message; a claim stores nothing |
| Service.ClaimPassesPageOutcome | OrangeHrmApi/Services/OrangeHrmService.cs:143-152 | once the claim page ran, the service returns exactly its triple |
| Service.ClaimBrowserFailuresReported | OrangeHrmApi/Services/OrangeHrmService.cs:134-158 | once the name is resolved, a browser that does not start, a login that throws or a navigation that throws gives "Internal server error" and stores nothing |
| Service.CreateClaimOutcomeWellFormed | OrangeHrmApi/Services/OrangeHrmService.cs:106-158 | every claim result is `(true, reference, null)` with a non-empty reference, or `(false, null, message)` |
| Controller.AddEmployeeNamesChecked | OrangeHrmApi/Controllers/OrangeHrmController.cs:35-42 | a blank first or last name gives 400 "FirstName and LastName are required", whatever the service would return |
| Controller.AddEmployee | OrangeHrmApi/Controllers/OrangeHrmController.cs:21-88 | the status is 200, 400, 409 or 500; the response succeeds exactly with 200, and then the service succeeded and its result is passed on with no message; a failure carries a message and no data (AddEmployeeFailureStatus states which status) |
| Controller.AddEmployeeFailureStatus | OrangeHrmApi/Controllers/OrangeHrmController.cs:46-70 | a failure is 409 if and only if its error contains "already exists"; 400 if and only if it contains "not found" but not "already exists"; 500 otherwise, including a missing error; 409 and 400 pass the error through, 500 replaces it with the generic message |
| Controller.CreateClaimChecksInOrder | OrangeHrmApi/Controllers/OrangeHrmController.cs:105-121 | no id and no name gives the employee message whatever the event and currency; then a blank event or currency gives its message; in both cases the response does not depend on the service |
| Controller.CreateClaim | OrangeHrmApi/Controllers/OrangeHrmController.cs:91-158 | the status is 200, 400 or 500; the response succeeds exactly with 200, and then the service succeeded and its result is passed on with no message; a failure carries a message and no data (CreateClaimFailureStatus states which status) |
| Controller.CreateClaimFailureStatus | OrangeHrmApi/Controllers/OrangeHrmController.cs:125-141 | a claim response is never 409; past the checks, a failure is 400 with the error passed through if and only if the error contains "not found", else 500 with the generic message |
| Controller.SuccessPassesResult | OrangeHrmApi/Controllers/OrangeHrmController.cs:73-77 | past the checks, a response succeeds if and only if the service did, and it is then 200 carrying the service's result unchanged |
| Controller.ResponsesWellFormed | OrangeHrmApi/Controllers/OrangeHrmController.cs:44-147 | a well-formed service triple gives a response that succeeds exactly with status 200, data and no message, or fails with 400, 409 (employees only) or 500, no data and a message |
| Scenarios.JobErrorMessageIsGeneric | OrangeHrmApi/Services/Pages/JobPage.cs:81 | the generic job error contains neither "already exists" nor "not found" |
| Scenarios.NoEmployeeMessageIsGeneric | OrangeHrmApi/Services/OrangeHrmService.cs:131 | the service's no-employee message does not contain "not found" |
| Scenarios.DuplicateEmployeeIsConflict | OrangeHrmApi/Controllers/OrangeHrmController.cs:48-55 | an employee whose names are stored, with the gate on, is answered 409 with the duplicate message |
| Scenarios.JobFailureStatus | OrangeHrmApi/Controllers/OrangeHrmController.cs:46-70 | a job-page failure is answered 500 exactly when it is the generic job error, and otherwise 400 or 409 with its own message |
| Scenarios.UnknownEmployeeIdIsBadRequest | OrangeHrmApi/Services/OrangeHrmService.cs:115-121 | a claim naming an employee id the database does not hold is answered 400 with a message naming that id |
| Scenarios.IdOnlyClaimWithoutDatabaseIsServerError | OrangeHrmApi/Services/OrangeHrmService.cs:115-131 | with the database off, a claim giving only an id passes the controller but the service rejects it, and the answer is 500 |
| Scenarios.UnknownEventIsBadRequest | OrangeHrmApi/Services/Pages/AssignClaimPage.cs:68-69 | a claim whose event is not offered is answered 400 with the event's message |

`Repository.FindById` and `Repository.EmployeeRepository.Add` model
`GetByEmployeeIdAsync` and `AddAsync` (`OrangeHrmApi/Data/EmployeeRepository .cs`,
lines 17-21 and 31-37). The rows above cite the service lines that call them.

`Dropdown.SelectDropdownOption` also models the identical copy of the method
in `OrangeHrmApi/Services/Pages/AssignClaimPage.cs`, lines 153-191.

## Where the code decides

In a few places the code behaves differently from what its surrounding
description leads one to expect. The model follows the code:

- A missing Reference Id input does not give an empty reference id.
  `ExtractReferenceIdAsync` catches only a missing element. The wait's
  time-out reaches the outer handler, and the claim fails with "Error
  creating claim" rather than the no-reference message.
- A fault while the options are scanned leaves the dropdown list open. The
  handler returns false without clicking the body. Only a clean miss closes
  the list.
- `GetEmployeeIdAsync` may return "". The service then stores and returns
  "" as a success; nothing requires the id to be non-empty.
- With the database off, a claim request that gives only an employee id
  passes the controller's check. The service rejects it with a message that
  does not contain "not found", so the answer is a 500, not a 400.

## Left out

- The Selenium and ChromeDriver calls are foreign I/O. Each wait and
  read-back is an observation field, and the driver is a trace of abstract
  actions.
- Creating the browser is a single `sessionStarts` flag. Its options
  (`CreateWebDriver`) are not modelled.
- `Quit` or `Dispose` throwing is not modelled.
- `LoginPage` and the navigation helpers are fixed sequences of driver
  steps. Each is an observation (logged in, page reached) and one action.
- The settle pauses and the wait time-outs are timing only.
- Screenshots, page-source dumps and logging never change a result. This
  includes the option-list log line in `AssignClaimPage.SelectDropdownOptionAsync`.
- Async and await, and concurrent requests racing on the database, are
  concurrency.
- ASP.NET `ModelState` validation is framework behaviour that the source
  does not show.
- The controller's outer exception handler is left out: the modelled
  service never throws to it.
- `System.Random` is replaced by the draws parameter.
- Text.EqualsIgnoreCasePointwise: case-insensitive equality folds ASCII
  letters only. .NET's ordinal-ignore-case comparison also folds other
  Unicode letters, and culture data is not modelled.
- Text.FindDigitsAfter: `\d` is restricted to the ASCII digits. .NET's
  regular expressions also accept other Unicode decimal digits.
- AssignClaimPage.IsClaimDetailUrl: the URL pattern is matched ignoring
  case, as `ExpectedConditions.UrlMatches` does. Only ASCII letters are
  folded, where .NET's case-insensitive matching also folds some other
  Unicode letters. The pattern's escaped dots are literal dots.
- The repository lookups always answer. In the program, `GetByNameAsync`
  (`OrangeHrmService.cs`, line 39) and `GetByEmployeeIdAsync` (line 117) can
  throw, for example when the database is unreachable. That exception becomes
  "Internal server error" before any browser starts, and the model has no
  such path.
- Repository.FullName: the `Employee` entity that defines the display name is
  not part of this model. The name is taken as first name, optional middle
  name and last name, joined by single spaces.
- `GetByNameAsync` is reduced to whether a record with the same names
  exists. Which record it returns is never used.
- `ExistsAsync` is never called by the modelled code.
- Repository.EmployeeRepository.Add: the database's other constraints (maximum
  lengths, required fields) and the creation timestamp are not modelled.
  Only the unique EmployeeId index decides whether the save throws.
- Faults are modelled per step, not per driver call. For example, a dropdown
  that appears but whose list cannot be read is the same as one that never
  appeared.
- `SaveJobDetailsAsync` is one observation (the Save button was found) and
  one click.
