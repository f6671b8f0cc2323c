/** The orchestration in `OrangeHrmService`: the duplicate gate, the browser
    session opened after it and released on every path, the page flows in
    order, persistence after success, the claim's employee-name resolution and
    the candidate-id generator. */
module Service {
  import opened Text
  import opened Driver
  import opened Outcomes
  import opened Models
  import opened Repository
  import EmployeePage
  import JobPage
  import AssignClaimPage

  const DuplicateMessage := "Employee with the same name already exists"
  const NoEmployeeMessage := "Either employeeId or employeeName must be provided"

  function UnknownIdMessage(employeeId: string): string {
    "Employee with ID '" + employeeId + "' not found"
  }

  const AddEmployeeMenu := "Add Employee"
  const JobTab := "Job"
  const AssignClaimMenu := "Assign Claim"

  // ----- candidate employee ids -----

  const Upper := "ABCDEFGHIJKLMNOPQRSTUVWXYZ"
  const Lower := "abcdefghijklmnopqrstuvwxyz"
  const Digits := "0123456789"

  /** The characters GenerateEmployeeId draws from: the 62-character string
      of capitals, small letters and digits, in that order. */
  const Alphabet := Upper + Lower + Digits

  /** What `random.Next(62)` can return. */
  type AlphabetIndex = k: nat | k < 62

  predicate IsAlphanumeric(c: char) {
    'A' <= c <= 'Z' || 'a' <= c <= 'z' || '0' <= c <= '9'
  }

  /** The `k`-th ASCII letter or digit, capitals first, then small letters,
      then digits. */
  function AlphanumericAt(k: AlphabetIndex): char {
    if k < 26 then ('A' as int + k) as char
    else if k < 52 then ('a' as int + k - 26) as char
    else ('0' as int + k - 52) as char
  }

  lemma UpperAt(k: nat)
    requires k < 26
    ensures Upper[k] == AlphanumericAt(k)
  {
  }

  lemma LowerAt(k: nat)
    requires k < 26
    ensures Lower[k] == AlphanumericAt(26 + k)
  {
  }

  lemma DigitsAt(k: nat)
    requires k < 10
    ensures Digits[k] == AlphanumericAt(52 + k)
  {
  }

  /** Position `k` of the alphabet holds the `k`-th letter or digit. */
  lemma AlphabetAt(k: AlphabetIndex)
    ensures |Alphabet| == 62 && Alphabet[k] == AlphanumericAt(k)
  {
    if k < 26 {
      UpperAt(k);
    } else if k < 52 {
      LowerAt(k - 26);
    } else {
      DigitsAt(k - 52);
    }
  }

  /** The alphabet holds 62 characters, each an ASCII letter or digit, and
      every ASCII letter and digit is among them. */
  lemma AlphabetExactlyAlphanumerics()
    ensures |Alphabet| == 62
    ensures forall k :: 0 <= k < |Alphabet| ==> IsAlphanumeric(Alphabet[k])
    ensures forall c :: IsAlphanumeric(c) ==> c in Alphabet
  {
    AlphabetAt(0);
    forall k | 0 <= k < |Alphabet| ensures IsAlphanumeric(Alphabet[k]) {
      AlphabetAt(k);
    }
    forall c | IsAlphanumeric(c) ensures c in Alphabet {
      AlphabetAt(AlphabetIndexOf(c));
    }
  }

  /** Where an ASCII letter or digit sits in the alphabet. */
  function AlphabetIndexOf(c: char): (k: AlphabetIndex)
    requires IsAlphanumeric(c)
    ensures AlphanumericAt(k) == c
  {
    if 'A' <= c <= 'Z' then c as int - 'A' as int
    else if 'a' <= c <= 'z' then 26 + c as int - 'a' as int
    else 52 + c as int - '0' as int
  }

  /** The id GenerateEmployeeId builds when the `i`-th draw is `draw(i)`. */
  function CandidateId(draw: nat -> AlphabetIndex): string {
    AlphabetAt(0);
    seq(7, (i: int) requires 0 <= i < 7 => Alphabet[draw(i)])
  }

  /** Every candidate has exactly seven characters, each an ASCII letter or
      digit. */
  lemma CandidateIdShape(draw: nat -> AlphabetIndex)
    ensures |CandidateId(draw)| == 7
    ensures forall i :: 0 <= i < 7 ==> IsAlphanumeric(CandidateId(draw)[i])
  {
    AlphabetExactlyAlphanumerics();
  }

  /** Every seven-character string of ASCII letters and digits is produced by
      some sequence of draws. */
  lemma EveryCandidateReachable(s: string)
    requires |s| == 7 && forall i :: 0 <= i < 7 ==> IsAlphanumeric(s[i])
    ensures exists draw: nat -> AlphabetIndex :: CandidateId(draw) == s
  {
    var draw: nat -> AlphabetIndex := (i: nat) => if i < 7 then AlphabetIndexOf(s[i]) else 0;
    forall i | 0 <= i < 7 ensures CandidateId(draw)[i] == s[i] {
      AlphabetAt(draw(i));
    }
    assert CandidateId(draw) == s;
  }

  /** GenerateEmployeeId: seven draws from the alphabet, appended in order. */
  method GenerateEmployeeId(draw: nat -> AlphabetIndex) returns (id: string)
    ensures id == CandidateId(draw)
    ensures |id| == 7 && forall i :: 0 <= i < |id| ==> IsAlphanumeric(id[i])
  {
    AlphabetAt(0);
    ghost var candidate := CandidateId(draw);
    id := [];
    var i := 0;
    while i < 7
      invariant 0 <= i <= 7
      invariant id == candidate[..i]
    {
      assert candidate[..i + 1] == candidate[..i] + [candidate[i]];
      id := id + [Alphabet[draw(i)]];
      i := i + 1;
    }
    assert id == candidate;
    CandidateIdShape(draw);
  }

  // ----- adding an employee -----

  /** What the browser shows while an employee is added: whether the session
      starts, whether login and each navigation get through, and what each
      page shows. `url` is the address after saving; `today` is the date the
      joined-date input receives. */
  datatype AddEmployeeScene = AddEmployeeScene(
    sessionStarts: bool,
    loggedIn: bool,
    addPageReached: bool,
    personal: EmployeePage.PersonalForm,
    save: EmployeePage.SaveView,
    url: string,
    idField: EmployeePage.IdField,
    jobTabReached: bool,
    job: JobPage.JobForm,
    today: string,
    jobSaveButtonShown: bool)

  /** How the browser part of AddEmployeeAsync ends: an exception, a job
      validation failure with its error, or completion with the id read back
      after saving. */
  datatype Progress = Threw | JobRejected(error: Option<string>) | Completed(finalId: string)

  /** The browser part of AddEmployeeAsync, from login to saving the job
      details. */
  function AddEmployeeSteps(request: AddEmployeeRequest, candidate: string, caseSensitive: bool,
                            scene: AddEmployeeScene): Run<Progress> {
    if !scene.loggedIn then Run(Threw, [LogIn])
    else
      var reached := [LogIn, Navigate(AddEmployeeMenu)];
      if !scene.addPageReached then Run(Threw, reached)
      else
        var fill := EmployeePage.FillRun(request.firstName, request.middleName, request.lastName, candidate, scene.personal);
        if !fill.result then Run(Threw, reached + fill.actions)
        else
          var save := EmployeePage.SaveRun(scene.save);
          if !save.result then Run(Threw, reached + fill.actions + save.actions)
          else
            var atJobTab := reached + fill.actions + save.actions + [Navigate(JobTab)];
            if !scene.jobTabReached then Run(Threw, atJobTab)
            else
              var job := JobPage.JobRun(request.job, scene.job, caseSensitive, scene.today);
              if !job.result.success then Run(JobRejected(job.result.error), atJobTab + job.actions)
              else if !scene.jobSaveButtonShown then Run(Threw, atJobTab + job.actions)
              else Run(Completed(EmployeePage.GetEmployeeId(scene.url, scene.idField)), atJobTab + job.actions + [Submit])
  }

  /** The duplicate lookup runs only when duplicates are not allowed and the
      database is in use. */
  predicate DuplicateCheckApplies(settings: Settings) {
    !settings.allowDuplicateEmployees && settings.useSqlite
  }

  /** The record AddEmployeeAsync stores: the id read back from the
      application and the names of the request. */
  function NewEmployee(finalId: string, request: AddEmployeeRequest): Employee {
    Employee(finalId, request.firstName, request.middleName, request.lastName)
  }

  /** What a service call returns, the actions of the browser session when
      one was created (it is released on every path), and the record stored,
      if any. */
  datatype Plan = Plan(outcome: Outcome, session: Option<seq<Action>>, stored: Option<Employee>)

  /** AddEmployeeAsync over the stored records `employees`. */
  function AddEmployeePlan(settings: Settings, employees: map<string, Employee>, request: AddEmployeeRequest,
                           candidate: string, scene: AddEmployeeScene): Plan
    requires FiledById(employees)
  {
    if DuplicateCheckApplies(settings) && NameTaken(employees, request.firstName, request.middleName, request.lastName) then
      Plan(Failed(DuplicateMessage), None, None)
    else if !scene.sessionStarts then
      // creating the browser threw before the session existed
      Plan(Failed(InternalErrorMessage), None, None)
    else
      var steps := AddEmployeeSteps(request, candidate, settings.caseSensitiveValidation, scene);
      match steps.result
      case Threw => Plan(Failed(InternalErrorMessage), Some(steps.actions), None)
      case JobRejected(error) => Plan(Outcome(false, None, error), Some(steps.actions), None)
      case Completed(finalId) =>
        if !settings.useSqlite then Plan(Succeeded(finalId), Some(steps.actions), None)
        else if FindById(employees, finalId).Some? then
          // the unique index on EmployeeId makes the save throw
          Plan(Failed(InternalErrorMessage), Some(steps.actions), None)
        else Plan(Succeeded(finalId), Some(steps.actions), Some(NewEmployee(finalId, request)))
  }

  // ----- creating a claim -----

  /** What the browser shows while a claim is created. */
  datatype ClaimScene = ClaimScene(
    sessionStarts: bool,
    loggedIn: bool,
    claimPageReached: bool,
    form: AssignClaimPage.ClaimForm)

  /** The name typed into the claim page, or the message that ends the call
      before any browser is started. */
  datatype NameResolution = Resolved(name: string) | Rejected(message: string)

  /** The employee-name resolution of CreateClaimAsync: by id through the
      database when it is in use and an id was given, else the given name. */
  function ResolveEmployeeName(useSqlite: bool, employees: map<string, Employee>, request: CreateClaimRequest): (r: NameResolution)
    requires FiledById(employees)
    ensures r.Resolved? ==> r.name != []
    ensures r.Resolved? && !(useSqlite && !IsNullOrEmpty(request.employeeId)) ==> request.employeeName == Some(r.name)
    ensures r.Rejected? ==> r.message == NoEmployeeMessage
                            || (request.employeeId.Some? && r.message == UnknownIdMessage(request.employeeId.value))
  {
    if useSqlite && !IsNullOrEmpty(request.employeeId) then
      match FindById(employees, request.employeeId.value)
      case None => Rejected(UnknownIdMessage(request.employeeId.value))
      case Some(e) => Resolved(FullName(e))
    else if !IsNullOrEmpty(request.employeeName) then Resolved(request.employeeName.value)
    else Rejected(NoEmployeeMessage)
  }

  /** The browser part of CreateClaimAsync: None when login or navigation
      threw, else the page's outcome. */
  function ClaimSteps(name: string, request: CreateClaimRequest, caseSensitive: bool, scene: ClaimScene): Run<Option<Outcome>> {
    if !scene.loggedIn then Run(None, [LogIn])
    else if !scene.claimPageReached then Run(None, [LogIn, Navigate(AssignClaimMenu)])
    else
      var page := AssignClaimPage.ClaimRun(name, request.event, request.currency, request.remarks, caseSensitive, scene.form);
      Run(Some(page.result), [LogIn, Navigate(AssignClaimMenu)] + page.actions)
  }

  /** CreateClaimAsync over the stored records `employees`. */
  function CreateClaimPlan(settings: Settings, employees: map<string, Employee>, request: CreateClaimRequest,
                           scene: ClaimScene): Plan
    requires FiledById(employees)
  {
    match ResolveEmployeeName(settings.useSqlite, employees, request)
    case Rejected(message) => Plan(Failed(message), None, None)
    case Resolved(name) =>
      if !scene.sessionStarts then Plan(Failed(InternalErrorMessage), None, None)
      else
        var steps := ClaimSteps(name, request, settings.caseSensitiveValidation, scene);
        if steps.result.None? then Plan(Failed(InternalErrorMessage), Some(steps.actions), None)
        else
          var page := steps.result.value;
          Plan(if !page.success then Outcome(false, None, page.error) else Outcome(true, page.value, None),
               Some(steps.actions), None)
  }

  // ----- the service object -----

  class OrangeHrmService {
    const settings: Settings
    const repository: EmployeeRepository

    constructor (settings: Settings, repository: EmployeeRepository)
      ensures this.settings == settings && this.repository == repository
    {
      this.settings := settings;
      this.repository := repository;
    }

    /** The browser part of AddEmployeeAsync on a live session. */
    method RunAddEmployeeSteps(driver: Browser, request: AddEmployeeRequest, draw: nat -> AlphabetIndex,
                               scene: AddEmployeeScene)
      returns (progress: Progress)
      requires driver.Valid() && !driver.released
      modifies driver
      ensures driver.Valid() && !driver.released
      ensures var steps := AddEmployeeSteps(request, CandidateId(draw), settings.caseSensitiveValidation, scene);
              progress == steps.result && driver.trace == old(driver.trace) + steps.actions
    {
      ghost var steps := AddEmployeeSteps(request, CandidateId(draw), settings.caseSensitiveValidation, scene);
      driver.Perform(LogIn);
      if !scene.loggedIn {
        return Threw;
      }
      driver.Perform(Navigate(AddEmployeeMenu));
      ghost var reached := [LogIn, Navigate(AddEmployeeMenu)];
      assert driver.trace == old(driver.trace) + reached;
      if !scene.addPageReached {
        return Threw;
      }
      var employeeId := GenerateEmployeeId(draw);
      ghost var fill := EmployeePage.FillRun(request.firstName, request.middleName, request.lastName, employeeId, scene.personal);
      var filled := EmployeePage.FillEmployeeDetails(driver, request.firstName, request.middleName, request.lastName,
                                                     employeeId, scene.personal);
      AppendInSteps(old(driver.trace), reached, fill.actions);
      if !filled {
        return Threw;
      }
      ghost var save := EmployeePage.SaveRun(scene.save);
      var saved := EmployeePage.SaveEmployee(driver, scene.save);
      AppendInSteps(old(driver.trace), reached + fill.actions, save.actions);
      if !saved {
        return Threw;
      }
      var finalEmployeeId := EmployeePage.GetEmployeeId(scene.url, scene.idField);
      driver.Perform(Navigate(JobTab));
      ghost var atJobTab := reached + fill.actions + save.actions + [Navigate(JobTab)];
      AppendInSteps(old(driver.trace), reached + fill.actions + save.actions, [Navigate(JobTab)]);
      assert driver.trace == old(driver.trace) + atJobTab;
      if !scene.jobTabReached {
        return Threw;
      }
      ghost var job := JobPage.JobRun(request.job, scene.job, settings.caseSensitiveValidation, scene.today);
      var success, error := JobPage.ValidateAndFillJobDetails(driver, request.job, scene.job,
                                                              settings.caseSensitiveValidation, scene.today);
      AppendInSteps(old(driver.trace), atJobTab, job.actions);
      if !success {
        return JobRejected(error);
      }
      if !scene.jobSaveButtonShown {
        return Threw;
      }
      driver.Perform(Submit);
      AppendInSteps(old(driver.trace), atJobTab + job.actions, [Submit]);
      progress := Completed(finalEmployeeId);
    }

    /** AddEmployeeAsync. */
    method AddEmployee(request: AddEmployeeRequest, draw: nat -> AlphabetIndex, scene: AddEmployeeScene)
      returns (outcome: Outcome, session: Browser?)
      requires repository.Valid()
      modifies repository
      ensures repository.Valid()
      ensures var plan := AddEmployeePlan(settings, old(repository.employees), request, CandidateId(draw), scene);
              && outcome == plan.outcome
              && (session == null <==> plan.session.None?)
              && (session != null ==> fresh(session) && session.released && session.trace == plan.session.value)
              && repository.employees == (if plan.stored.Some? then old(repository.employees)[plan.stored.value.employeeId := plan.stored.value]
                                          else old(repository.employees))
    {
      session := null;
      if DuplicateCheckApplies(settings) && repository.HasEmployeeNamed(request.firstName, request.middleName, request.lastName) {
        return Failed(DuplicateMessage), null;
      }
      if !scene.sessionStarts {
        return Failed(InternalErrorMessage), null;
      }
      session := new Browser();
      var progress := RunAddEmployeeSteps(session, request, draw, scene);
      match progress {
        case Threw =>
          outcome := Failed(InternalErrorMessage);
        case JobRejected(error) =>
          outcome := Outcome(false, None, error);
        case Completed(finalEmployeeId) =>
          outcome := Succeeded(finalEmployeeId);
          if settings.useSqlite {
            var saved := repository.Add(NewEmployee(finalEmployeeId, request));
            if !saved {
              outcome := Failed(InternalErrorMessage);
            }
          }
      }
      // finally: quit and dispose
      session.QuitAndDispose();
    }

    /** The browser part of CreateClaimAsync on a live session. */
    method RunClaimSteps(driver: Browser, name: string, request: CreateClaimRequest, scene: ClaimScene)
      returns (page: Option<Outcome>)
      requires driver.Valid() && !driver.released
      modifies driver
      ensures driver.Valid() && !driver.released
      ensures var steps := ClaimSteps(name, request, settings.caseSensitiveValidation, scene);
              page == steps.result && driver.trace == old(driver.trace) + steps.actions
    {
      driver.Perform(LogIn);
      if !scene.loggedIn {
        return None;
      }
      driver.Perform(Navigate(AssignClaimMenu));
      ghost var reached := [LogIn, Navigate(AssignClaimMenu)];
      assert driver.trace == old(driver.trace) + reached;
      if !scene.claimPageReached {
        return None;
      }
      ghost var run := AssignClaimPage.ClaimRun(name, request.event, request.currency, request.remarks,
                                                settings.caseSensitiveValidation, scene.form);
      assert ClaimSteps(name, request, settings.caseSensitiveValidation, scene) == Run(Some(run.result), reached + run.actions);
      var result := AssignClaimPage.CreateClaim(driver, name, request.event, request.currency, request.remarks,
                                                settings.caseSensitiveValidation, scene.form);
      AppendInSteps(old(driver.trace), reached, run.actions);
      page := Some(result);
    }

    /** CreateClaimAsync. */
    method CreateClaim(request: CreateClaimRequest, scene: ClaimScene) returns (outcome: Outcome, session: Browser?)
      requires repository.Valid()
      ensures var plan := CreateClaimPlan(settings, repository.employees, request, scene);
              && outcome == plan.outcome
              && (session == null <==> plan.session.None?)
              && (session != null ==> fresh(session) && session.released && session.trace == plan.session.value)
    {
      session := null;
      var employeeName: string;
      if settings.useSqlite && !IsNullOrEmpty(request.employeeId) {
        var employee := repository.GetByEmployeeId(request.employeeId.value);
        if employee.None? {
          return Failed(UnknownIdMessage(request.employeeId.value)), null;
        }
        employeeName := FullName(employee.value);
      } else if !IsNullOrEmpty(request.employeeName) {
        employeeName := request.employeeName.value;
      } else {
        return Failed(NoEmployeeMessage), null;
      }
      assert ResolveEmployeeName(settings.useSqlite, repository.employees, request) == Resolved(employeeName);
      if !scene.sessionStarts {
        return Failed(InternalErrorMessage), null;
      }
      session := new Browser();
      var page := RunClaimSteps(session, employeeName, request, scene);
      assert CreateClaimPlan(settings, repository.employees, request, scene).session
          == Some(ClaimSteps(employeeName, request, settings.caseSensitiveValidation, scene).actions);
      if page.None? {
        outcome := Failed(InternalErrorMessage);
      } else if !page.value.success {
        outcome := Outcome(false, None, page.value.error);
      } else {
        outcome := Outcome(true, page.value.value, None);
      }
      // finally: quit and dispose
      session.QuitAndDispose();
    }
  }

  // ----- properties of the service flows -----

  /** The duplicate lookup decides the call only when it applies: then a
      record with the same names ends the call with the duplicate message
      before any browser is started. When it does not apply, a browser is
      started unless it fails to start. */
  lemma DuplicateGate(settings: Settings, employees: map<string, Employee>, request: AddEmployeeRequest,
                      candidate: string, scene: AddEmployeeScene)
    requires FiledById(employees)
    ensures var plan := AddEmployeePlan(settings, employees, request, candidate, scene);
            && (plan.session.None? && plan.outcome == Failed(DuplicateMessage)
                <==> DuplicateCheckApplies(settings) && NameTaken(employees, request.firstName, request.middleName, request.lastName))
            && (!DuplicateCheckApplies(settings) ==> plan.session.Some? || plan.outcome == Failed(InternalErrorMessage))
  {
    assert DuplicateMessage[0] != InternalErrorMessage[0];
  }

  /** A browser session exists exactly when the duplicate gate let the call
      through and the browser started; nothing is stored without one. */
  lemma SessionOnlyPastGate(settings: Settings, employees: map<string, Employee>, request: AddEmployeeRequest,
                            candidate: string, scene: AddEmployeeScene)
    requires FiledById(employees)
    ensures var plan := AddEmployeePlan(settings, employees, request, candidate, scene);
            && (plan.session.Some? <==>
                  scene.sessionStarts
                  && !(DuplicateCheckApplies(settings) && NameTaken(employees, request.firstName, request.middleName, request.lastName)))
            && (plan.session.None? ==> plan.stored.None? && !plan.outcome.success)
  {
  }

  /** A record is stored only when the database is in use and every step
      succeeded; it carries the id read back from the application, not the
      generated candidate, and the call returns that id. Conversely a
      successful call with the database in use has stored its record. */
  lemma PersistOnlyAfterSuccess(settings: Settings, employees: map<string, Employee>, request: AddEmployeeRequest,
                                candidate: string, scene: AddEmployeeScene)
    requires FiledById(employees)
    ensures var plan := AddEmployeePlan(settings, employees, request, candidate, scene);
            var finalId := EmployeePage.GetEmployeeId(scene.url, scene.idField);
            && (plan.stored.Some? ==>
                  && settings.useSqlite && plan.outcome == Succeeded(finalId)
                  && AddEmployeeSteps(request, candidate, settings.caseSensitiveValidation, scene).result == Completed(finalId)
                  && plan.stored.value == Employee(finalId, request.firstName, request.middleName, request.lastName)
                  && FindById(employees, finalId).None?)
            && (plan.outcome.success && settings.useSqlite ==> plan.stored.Some?)
            && (plan.outcome.success ==> plan.outcome.value == Some(finalId))
  {
  }

  /** Once past the gate, a job-validation failure is returned with its error
      unchanged and nothing is stored; every exception in the browser steps
      becomes the generic internal error. */
  lemma BrowserFailuresReported(settings: Settings, employees: map<string, Employee>, request: AddEmployeeRequest,
                                candidate: string, scene: AddEmployeeScene)
    requires FiledById(employees)
    requires AddEmployeePlan(settings, employees, request, candidate, scene).session.Some?
    ensures var plan := AddEmployeePlan(settings, employees, request, candidate, scene);
            var steps := AddEmployeeSteps(request, candidate, settings.caseSensitiveValidation, scene);
            && (steps.result.JobRejected? ==>
                  plan.outcome == Outcome(false, None, steps.result.error) && plan.stored.None?
                  && steps.result.error == JobPage.JobRun(request.job, scene.job, settings.caseSensitiveValidation, scene.today).result.error)
            && (steps.result.Threw? ==> plan.outcome == Failed(InternalErrorMessage) && plan.stored.None?)
  {
  }

  /** When the browser steps complete, the job details were all selected and
      saved, the employee form was filled with the generated candidate, and
      the candidate was read back before saving. */
  lemma CompletedMeansEveryPageSucceeded(request: AddEmployeeRequest, candidate: string, caseSensitive: bool, scene: AddEmployeeScene)
    requires AddEmployeeSteps(request, candidate, caseSensitive, scene).result.Completed?
    ensures EmployeePage.FillRun(request.firstName, request.middleName, request.lastName, candidate, scene.personal).result
    ensures scene.personal.idReadBack == Some(candidate)
    ensures EmployeePage.SaveRun(scene.save).result
    ensures JobPage.JobRun(request.job, scene.job, caseSensitive, scene.today).result.success
    ensures InjectId(candidate) in AddEmployeeSteps(request, candidate, caseSensitive, scene).actions
    ensures Submit in AddEmployeeSteps(request, candidate, caseSensitive, scene).actions
  {
    EmployeePage.ReadBackDecides(request.firstName, request.middleName, request.lastName, candidate, scene.personal);
  }

  /** A read-back that differs from the candidate is raised as an exception:
      the steps end there, before the Save click and the Job tab. */
  lemma ReadBackMismatchStops(request: AddEmployeeRequest, candidate: string, caseSensitive: bool, scene: AddEmployeeScene)
    requires scene.personal.idReadBack != Some(candidate)
    ensures AddEmployeeSteps(request, candidate, caseSensitive, scene).result == Threw
    ensures Navigate(JobTab) !in AddEmployeeSteps(request, candidate, caseSensitive, scene).actions
    ensures Submit !in AddEmployeeSteps(request, candidate, caseSensitive, scene).actions
  {
    EmployeePage.ReadBackDecides(request.firstName, request.middleName, request.lastName, candidate, scene.personal);
  }

  /** Every AddEmployeeAsync result is `(true, id, null)` or
      `(false, null, message)`. */
  lemma AddEmployeeOutcomeWellFormed(settings: Settings, employees: map<string, Employee>, request: AddEmployeeRequest,
                                     candidate: string, scene: AddEmployeeScene)
    requires FiledById(employees)
    ensures WellFormed(AddEmployeePlan(settings, employees, request, candidate, scene).outcome)
  {
    JobPage.FailuresCarryAMessage(request.job, scene.job, settings.caseSensitiveValidation, scene.today);
  }

  /** The claim's employee name: looked up by id when the database is in use
      and an id was given (an unknown id ends the call with a message naming
      it); otherwise the given name; otherwise the call is rejected. */
  lemma NameResolutionOrder(useSqlite: bool, employees: map<string, Employee>, request: CreateClaimRequest)
    requires FiledById(employees)
    ensures var r := ResolveEmployeeName(useSqlite, employees, request);
            && (useSqlite && !IsNullOrEmpty(request.employeeId) ==>
                  match FindById(employees, request.employeeId.value)
                  case Some(e) => r == Resolved(FullName(e)) && e.employeeId == request.employeeId.value
                  case None => r == Rejected(UnknownIdMessage(request.employeeId.value)))
            && (!(useSqlite && !IsNullOrEmpty(request.employeeId)) && !IsNullOrEmpty(request.employeeName) ==>
                  r == Resolved(request.employeeName.value))
            && (IsNullOrEmpty(request.employeeName) && !(useSqlite && !IsNullOrEmpty(request.employeeId)) ==>
                  r == Rejected(NoEmployeeMessage))
            && (r.Rejected? <==>
                  if useSqlite && !IsNullOrEmpty(request.employeeId) then FindById(employees, request.employeeId.value).None?
                  else IsNullOrEmpty(request.employeeName))
  {
  }

  /** A rejected name ends the claim before any browser is started. */
  lemma RejectedNameStartsNoBrowser(settings: Settings, employees: map<string, Employee>, request: CreateClaimRequest,
                                    scene: ClaimScene)
    requires FiledById(employees)
    ensures var plan := CreateClaimPlan(settings, employees, request, scene);
            var r := ResolveEmployeeName(settings.useSqlite, employees, request);
            && (plan.session.Some? <==> r.Resolved? && scene.sessionStarts)
            && (r.Rejected? ==> plan.outcome == Failed(r.message))
            && plan.stored.None?
  {
  }

  /** Once the claim page ran, the service returns exactly its outcome: the
      reference id on success, the page's message on failure. */
  lemma ClaimPassesPageOutcome(settings: Settings, employees: map<string, Employee>, request: CreateClaimRequest,
                               scene: ClaimScene)
    requires FiledById(employees)
    requires ResolveEmployeeName(settings.useSqlite, employees, request).Resolved?
    requires scene.sessionStarts && scene.loggedIn && scene.claimPageReached
    ensures var name := ResolveEmployeeName(settings.useSqlite, employees, request).name;
            var page := AssignClaimPage.ClaimRun(name, request.event, request.currency, request.remarks,
                                                 settings.caseSensitiveValidation, scene.form);
            CreateClaimPlan(settings, employees, request, scene).outcome == page.result
  {
    var name := ResolveEmployeeName(settings.useSqlite, employees, request).name;
    AssignClaimPage.ClaimOutcomeWellFormed(name, request.event, request.currency, request.remarks,
                                           settings.caseSensitiveValidation, scene.form);
  }

  /** Once the name is resolved, a browser that does not start, a login that
      throws or a navigation that throws ends the call with the internal
      error, and nothing is stored. */
  lemma ClaimBrowserFailuresReported(settings: Settings, employees: map<string, Employee>, request: CreateClaimRequest,
                                     scene: ClaimScene)
    requires FiledById(employees)
    requires ResolveEmployeeName(settings.useSqlite, employees, request).Resolved?
    requires !scene.sessionStarts || !scene.loggedIn || !scene.claimPageReached
    ensures CreateClaimPlan(settings, employees, request, scene).outcome == Failed(InternalErrorMessage)
    ensures CreateClaimPlan(settings, employees, request, scene).stored.None?
  {
  }

  /** Every CreateClaimAsync result is `(true, referenceId, null)` with a
      non-empty reference id, or `(false, null, message)`. */
  lemma CreateClaimOutcomeWellFormed(settings: Settings, employees: map<string, Employee>, request: CreateClaimRequest,
                                     scene: ClaimScene)
    requires FiledById(employees)
    ensures var r := CreateClaimPlan(settings, employees, request, scene).outcome;
            WellFormed(r) && (r.success ==> r.value.value != [])
  {
    var res := ResolveEmployeeName(settings.useSqlite, employees, request);
    if res.Resolved? {
      AssignClaimPage.ClaimOutcomeWellFormed(res.name, request.event, request.currency, request.remarks,
                                             settings.caseSensitiveValidation, scene.form);
    }
  }
}
