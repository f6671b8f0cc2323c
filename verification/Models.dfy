/** Settings and request payloads, mirrored as plain values. */
module Models {
  import opened Text

  /** The settings the core reads; base URL, credentials, time-out and
      headless mode only configure the browser and are not modelled. */
  datatype Settings = Settings(
    useSqlite: bool,
    allowDuplicateEmployees: bool,
    caseSensitiveValidation: bool)

  datatype JobInfo = JobInfo(
    jobTitle: string,
    jobCategory: string,
    subUnit: string,
    location: string,
    employmentStatus: string)

  datatype AddEmployeeRequest = AddEmployeeRequest(
    firstName: string,
    middleName: Option<string>,
    lastName: string,
    job: JobInfo)

  datatype CreateClaimRequest = CreateClaimRequest(
    employeeName: Option<string>,
    employeeId: Option<string>,
    event: string,
    currency: string,
    remarks: Option<string>)
}
