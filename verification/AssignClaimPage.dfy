/** The Assign Claim page (`AssignClaimPage.CreateClaimAsync`): the employee
    typeahead, the Event and Currency dropdowns, optional remarks, the submit,
    the toast / dialog / URL cascade and the reference-id read-back. */
module AssignClaimPage {
  import opened Text
  import opened Driver
  import opened Dropdown
  import opened Outcomes

  const EmployeeNameField := "Employee Name"
  const EventField := "Event"
  const CurrencyField := "Currency"
  const RemarksField := "Remarks"

  /** The fixed part of the claim-detail URL pattern; the pattern requires at
      least one digit after it. */
  const ClaimDetailPrefix := "https://opensource-demo.orangehrmlive.com/web/index.php/claim/assignClaim/id/"

  const ClaimErrorMessage := "Error creating claim"
  const ErrorToastMessage := "Claim creation failed due to an error"
  const NavigationMessage := "Failed to navigate to claim details page"
  const NoReferenceMessage := "Could not extract reference ID from confirmation page"

  function NoSuggestionMessage(employeeName: string): string {
    "Employee '" + employeeName + "' not found in suggestions"
  }

  function EventNotFoundMessage(eventName: string): string {
    "Event '" + eventName + "' not found"
  }

  function CurrencyNotFoundMessage(currency: string): string {
    "Currency '" + currency + "' not found"
  }

  /** What the Reference Id wait finds on the claim-detail page. */
  datatype ReferenceField =
      /** The disabled input never appeared: the wait times out. */
    | ReferenceMissing
      /** The input appeared; its `value` attribute, None when absent. */
    | ReferenceShown(value: Option<string>)

  /** What the driver finds while a claim is created. `claimUrl` is the page
      address the URL wait sees. */
  datatype ClaimForm = ClaimForm(
    nameFieldShown: bool,
    suggestions: nat,
    event: DropdownView,
    currency: DropdownView,
    remarksFieldShown: bool,
    createButtonShown: bool,
    successToast: bool,
    errorToast: bool,
    dialogShown: bool,
    claimUrl: string,
    reference: ReferenceField)

  /** The URL wait succeeds: somewhere in the address the claim-detail prefix
      is followed by a digit (an unanchored regular-expression match, which
      `ExpectedConditions.UrlMatches` makes case-insensitive). */
  predicate IsClaimDetailUrl(url: string) {
    FindDigitsAfter(UpperAll(url), UpperAll(ClaimDetailPrefix), 0).Some?
  }

  /** Letter case in the address does not matter: addresses that agree once
      ASCII letters are upper-cased are accepted or refused together. */
  lemma ClaimDetailUrlIgnoresCase(url: string, other: string)
    requires |url| == |other| && forall i :: 0 <= i < |url| ==> UpperAscii(url[i]) == UpperAscii(other[i])
    ensures IsClaimDetailUrl(url) <==> IsClaimDetailUrl(other)
  {
    assert UpperAll(url) == UpperAll(other);
  }

  /** An address holding the claim-detail prefix, in any letter case, and a
      digit right after it is accepted, whatever comes before or after. */
  lemma ClaimDetailUrlAccepted(before: string, prefix: string, d: char, after: string)
    requires |prefix| == |ClaimDetailPrefix|
    requires forall i :: 0 <= i < |prefix| ==> UpperAscii(prefix[i]) == UpperAscii(ClaimDetailPrefix[i])
    requires IsDigit(d)
    ensures IsClaimDetailUrl(before + prefix + [d] + after)
  {
    var url := before + prefix + [d] + after;
    var u := UpperAll(url);
    var m := UpperAll(ClaimDetailPrefix);
    var n := |before|;
    forall k | 0 <= k < |m| ensures u[n + k] == m[k] {
      assert url[n + k] == prefix[k];
    }
    assert u[n..n + |m|] == m;
    assert url[n + |m|] == d;
    assert DigitsFollowAt(u, m, n);
  }

  /** ExtractReferenceIdAsync: the trimmed `value` of the Reference Id input,
      "" when the attribute is absent; None when the wait for the input times
      out, which that method does not catch. */
  function ExtractReferenceId(field: ReferenceField): (r: Option<string>)
    ensures r.None? <==> field.ReferenceMissing?
    ensures r.Some? && r.value != [] ==> !IsWhiteSpace(r.value[0]) && !IsWhiteSpace(r.value[|r.value| - 1])
  {
    match field
    case ReferenceMissing => None
    case ReferenceShown(v) =>
      if v.Some? then TrimShape(v.value); Some(Trim(v.value)) else Some("")
  }

  /** The cascade after the submit click: success toast, else error toast;
      then the dialog, the URL and the reference id. */
  function ConfirmationRun(form: ClaimForm): Run<Outcome> {
    if !form.successToast && form.errorToast then
      Run(Failed(ErrorToastMessage), [Await(SuccessToast), Await(ErrorToast)])
    else
      var toasts := if form.successToast then [Await(SuccessToast)] else [Await(SuccessToast), Await(ErrorToast)];
      var waited := toasts + [Await(ClaimDialog), Await(ClaimDetailPage)];
      if !IsClaimDetailUrl(form.claimUrl) then Run(Failed(NavigationMessage), waited)
      else
        var extracted := ExtractReferenceId(form.reference);
        var outcome :=
          if extracted.None? then Failed(ClaimErrorMessage)
          else if extracted.value == [] then Failed(NoReferenceMessage)
          else Succeeded(extracted.value);
        Run(outcome, waited + [Await(ReferenceIdInput)])
  }

  /** The actions up to the end of the currency selection, when the typeahead
      offered a suggestion and the selections ran as `ev` and `cur`. */
  function Chosen(employeeName: string, ev: Run<bool>, cur: Run<bool>): seq<Action> {
    [Fill(EmployeeNameField, employeeName), PickSuggestion(0)] + ev.actions + cur.actions
  }

  /** Chosen, for the selections the form yields. */
  function ChoiceActions(employeeName: string, eventName: string, currency: string, caseSensitive: bool, form: ClaimForm): seq<Action> {
    Chosen(employeeName, SelectionRun(EventField, form.event, eventName, caseSensitive),
           SelectionRun(CurrencyField, form.currency, currency, caseSensitive))
  }

  /** The input the remarks are written to, when they are. */
  function RemarksActions(remarks: Option<string>): seq<Action> {
    if IsNullOrEmpty(remarks) then [] else [Fill(RemarksField, remarks.value)]
  }

  /** The remarks, the submit click and the confirmation cascade, once both
      dropdowns were set. */
  function SubmitRun(remarks: Option<string>, form: ClaimForm): Run<Outcome> {
    if !IsNullOrEmpty(remarks) && !form.remarksFieldShown then Run(Failed(ClaimErrorMessage), [])
    else if !form.createButtonShown then Run(Failed(ClaimErrorMessage), RemarksActions(remarks))
    else
      var confirmation := ConfirmationRun(form);
      Run(confirmation.result, RemarksActions(remarks) + [Submit] + confirmation.actions)
  }

  /** The claim flow, given whether the name input appeared, how many
      suggestions it offered, and the runs of the Event and Currency
      selections and of the submit with its confirmation. */
  function ClaimRunOver(employeeName: string, eventName: string, currency: string, nameFieldShown: bool, suggestions: nat,
                        ev: Run<bool>, cur: Run<bool>, sub: Run<Outcome>): Run<Outcome> {
    var typed := [Fill(EmployeeNameField, employeeName)];
    if !nameFieldShown then Run(Failed(ClaimErrorMessage), [])
    else if suggestions == 0 then Run(Failed(NoSuggestionMessage(employeeName)), typed)
    else if !ev.result then Run(Failed(EventNotFoundMessage(eventName)), typed + [PickSuggestion(0)] + ev.actions)
    else if !cur.result then Run(Failed(CurrencyNotFoundMessage(currency)), Chosen(employeeName, ev, cur))
    else Run(sub.result, Chosen(employeeName, ev, cur) + sub.actions)
  }

  /** The outcome and the actions of CreateClaimAsync. */
  function ClaimRun(employeeName: string, eventName: string, currency: string, remarks: Option<string>,
                    caseSensitive: bool, form: ClaimForm): Run<Outcome> {
    ClaimRunOver(employeeName, eventName, currency, form.nameFieldShown, form.suggestions,
                 SelectionRun(EventField, form.event, eventName, caseSensitive),
                 SelectionRun(CurrencyField, form.currency, currency, caseSensitive),
                 SubmitRun(remarks, form))
  }

  /** Lines after the submit click: the toast, dialog and URL waits, then the
      reference id. */
  method AwaitConfirmation(driver: Browser, form: ClaimForm) returns (outcome: Outcome)
    requires driver.Valid() && !driver.released
    modifies driver
    ensures driver.Valid() && !driver.released
    ensures outcome == ConfirmationRun(form).result
    ensures driver.trace == old(driver.trace) + ConfirmationRun(form).actions
  {
    var successToastAppeared := false;
    var errorToastAppeared := false;
    driver.Perform(Await(SuccessToast));
    if form.successToast {
      successToastAppeared := true;
    } else {
      driver.Perform(Await(ErrorToast));
      if form.errorToast {
        errorToastAppeared := true;
        return Failed(ErrorToastMessage);
      }
    }
    ghost var toasts := if form.successToast then [Await(SuccessToast)] else [Await(SuccessToast), Await(ErrorToast)];
    assert driver.trace == old(driver.trace) + toasts;
    // the dialog wait only delays the flow, whether or not a dialog appears
    driver.Perform(Await(ClaimDialog));
    driver.Perform(Await(ClaimDetailPage));
    ghost var waited := toasts + [Await(ClaimDialog), Await(ClaimDetailPage)];
    assert driver.trace == old(driver.trace) + waited;
    if !IsClaimDetailUrl(form.claimUrl) {
      assert ConfirmationRun(form) == Run(Failed(NavigationMessage), waited);
      return Failed(NavigationMessage);
    }
    driver.Perform(Await(ReferenceIdInput));
    AppendInSteps(old(driver.trace), waited, [Await(ReferenceIdInput)]);
    assert ConfirmationRun(form).actions == waited + [Await(ReferenceIdInput)];
    var referenceId := ExtractReferenceId(form.reference);
    if referenceId.None? {
      // the wait's time-out is not the exception ExtractReferenceIdAsync catches
      return Failed(ClaimErrorMessage);
    }
    if IsNullOrEmpty(referenceId) {
      return Failed(NoReferenceMessage);
    }
    outcome := Succeeded(referenceId.value);
  }

  /** The remarks, the Create click and the confirmation. */
  method SubmitClaim(driver: Browser, remarks: Option<string>, form: ClaimForm) returns (outcome: Outcome)
    requires driver.Valid() && !driver.released
    modifies driver
    ensures driver.Valid() && !driver.released
    ensures outcome == SubmitRun(remarks, form).result
    ensures driver.trace == old(driver.trace) + SubmitRun(remarks, form).actions
  {
    if !IsNullOrEmpty(remarks) {
      if !form.remarksFieldShown {
        return Failed(ClaimErrorMessage);
      }
      driver.Perform(Fill(RemarksField, remarks.value));
    }
    assert driver.trace == old(driver.trace) + RemarksActions(remarks);
    if !form.createButtonShown {
      return Failed(ClaimErrorMessage);
    }
    driver.Perform(Submit);
    AppendInSteps(old(driver.trace), RemarksActions(remarks), [Submit]);
    outcome := AwaitConfirmation(driver, form);
    AppendInSteps(old(driver.trace), RemarksActions(remarks) + [Submit], ConfirmationRun(form).actions);
  }

  method CreateClaim(driver: Browser, employeeName: string, eventName: string, currency: string,
                     remarks: Option<string>, caseSensitive: bool, form: ClaimForm)
    returns (outcome: Outcome)
    requires driver.Valid() && !driver.released
    modifies driver
    ensures driver.Valid() && !driver.released
    ensures outcome == ClaimRun(employeeName, eventName, currency, remarks, caseSensitive, form).result
    ensures driver.trace == old(driver.trace) + ClaimRun(employeeName, eventName, currency, remarks, caseSensitive, form).actions
  {
    if !form.nameFieldShown {
      return Failed(ClaimErrorMessage);
    }
    driver.Perform(Fill(EmployeeNameField, employeeName));
    if form.suggestions == 0 {
      return Failed(NoSuggestionMessage(employeeName));
    }
    driver.Perform(PickSuggestion(0));
    ghost var picked := [Fill(EmployeeNameField, employeeName), PickSuggestion(0)];
    assert driver.trace == old(driver.trace) + picked;
    ghost var ev := SelectionRun(EventField, form.event, eventName, caseSensitive);
    var ok := SelectDropdownOption(driver, EventField, form.event, eventName, caseSensitive);
    AppendInSteps(old(driver.trace), picked, ev.actions);
    assert driver.trace == old(driver.trace) + (picked + ev.actions);
    if !ok {
      assert ClaimRun(employeeName, eventName, currency, remarks, caseSensitive, form)
          == Run(Failed(EventNotFoundMessage(eventName)), picked + ev.actions);
      return Failed(EventNotFoundMessage(eventName));
    }
    ghost var cur := SelectionRun(CurrencyField, form.currency, currency, caseSensitive);
    ok := SelectDropdownOption(driver, CurrencyField, form.currency, currency, caseSensitive);
    ghost var chosen := ChoiceActions(employeeName, eventName, currency, caseSensitive, form);
    AppendInSteps(old(driver.trace), picked + ev.actions, cur.actions);
    assert chosen == picked + ev.actions + cur.actions;
    assert driver.trace == old(driver.trace) + chosen;
    if !ok {
      assert ClaimRun(employeeName, eventName, currency, remarks, caseSensitive, form)
          == Run(Failed(CurrencyNotFoundMessage(currency)), chosen);
      return Failed(CurrencyNotFoundMessage(currency));
    }
    assert ClaimRun(employeeName, eventName, currency, remarks, caseSensitive, form)
        == Run(SubmitRun(remarks, form).result, chosen + SubmitRun(remarks, form).actions);
    outcome := SubmitClaim(driver, remarks, form);
    AppendInSteps(old(driver.trace), chosen, SubmitRun(remarks, form).actions);
  }

  /** The reference id read back is the trimmed `value` attribute: without
      white space at either end, empty exactly when the attribute is absent or
      blank, and unchanged when it has nothing to trim. */
  lemma ReferenceIdIsTrimmed(field: ReferenceField)
    ensures field.ReferenceMissing? <==> ExtractReferenceId(field).None?
    ensures field.ReferenceShown? ==>
              var id := ExtractReferenceId(field).value;
              && (id == [] <==> IsNullOrWhiteSpace(field.value))
              && (id != [] ==> !IsWhiteSpace(id[0]) && !IsWhiteSpace(id[|id| - 1]))
              && ((field.value.Some? && field.value.value != [] && !IsWhiteSpace(field.value.value[0])
                   && !IsWhiteSpace(field.value.value[|field.value.value| - 1])) ==> id == field.value.value)
  {
    if field.ReferenceShown? && field.value.Some? {
      TrimShape(field.value.value);
    }
  }

  /** With no typeahead suggestion the claim fails with the employee's name in
      the message, after typing the name and before any dropdown or click. */
  lemma NoSuggestionStopsEarly(employeeName: string, eventName: string, currency: string, remarks: Option<string>,
                               caseSensitive: bool, form: ClaimForm)
    requires form.nameFieldShown && form.suggestions == 0
    ensures var r := ClaimRun(employeeName, eventName, currency, remarks, caseSensitive, form);
            && r.result == Failed(NoSuggestionMessage(employeeName))
            && r.actions == [Fill(EmployeeNameField, employeeName)]
            && Contains(r.result.error.value, employeeName)
  {
    ContainsInside("Employee '", employeeName, "' not found in suggestions");
  }

  /** Every action of a run through the confirmation cascade is a wait. */
  lemma ConfirmationOnlyWaits(form: ClaimForm)
    ensures forall a :: a in ConfirmationRun(form).actions ==> a.Await?
  {
  }

  /** Whenever a suggestion is picked, it is the first one offered, and one
      is picked exactly when the name input appeared and offered one. */
  lemma OnlyFirstSuggestionPicked(employeeName: string, eventName: string, currency: string, remarks: Option<string>,
                                  caseSensitive: bool, form: ClaimForm)
    ensures var r := ClaimRun(employeeName, eventName, currency, remarks, caseSensitive, form);
            && (forall a :: a in r.actions && a.PickSuggestion? ==> a.index == 0)
            && (PickSuggestion(0) in r.actions <==> form.nameFieldShown && form.suggestions > 0)
  {
    if form.nameFieldShown && form.suggestions > 0 {
      PickedOnceAfterTyping(employeeName, eventName, currency, remarks, caseSensitive, form);
    }
  }

  /** Once a suggestion was picked, the claim flow picks no other: the
      remaining actions belong to the dropdowns, the remarks, the submit and
      the confirmation. */
  lemma PickedOnceAfterTyping(employeeName: string, eventName: string, currency: string, remarks: Option<string>,
                              caseSensitive: bool, form: ClaimForm)
    requires form.nameFieldShown && form.suggestions > 0
    ensures var r := ClaimRun(employeeName, eventName, currency, remarks, caseSensitive, form);
            && |r.actions| >= 2
            && r.actions[0] == Fill(EmployeeNameField, employeeName) && r.actions[1] == PickSuggestion(0)
            && forall i :: 2 <= i < |r.actions| ==> !r.actions[i].PickSuggestion?
  {
    SelectionPicksNothing(EventField, form.event, eventName, caseSensitive);
    SelectionPicksNothing(CurrencyField, form.currency, currency, caseSensitive);
    SubmitRunPicksNothing(remarks, form);
    PickedOnceOver(employeeName, eventName, currency, form.suggestions,
                   SelectionRun(EventField, form.event, eventName, caseSensitive),
                   SelectionRun(CurrencyField, form.currency, currency, caseSensitive),
                   SubmitRun(remarks, form));
  }

  /** PickedOnceAfterTyping, for any selections and submit that pick no
      suggestion themselves. */
  lemma PickedOnceOver(employeeName: string, eventName: string, currency: string, suggestions: nat,
                       ev: Run<bool>, cur: Run<bool>, sub: Run<Outcome>)
    requires suggestions > 0
    requires forall a :: a in ev.actions ==> !a.PickSuggestion?
    requires forall a :: a in cur.actions ==> !a.PickSuggestion?
    requires forall a :: a in sub.actions ==> !a.PickSuggestion?
    ensures var r := ClaimRunOver(employeeName, eventName, currency, true, suggestions, ev, cur, sub);
            && |r.actions| >= 2
            && r.actions[0] == Fill(EmployeeNameField, employeeName) && r.actions[1] == PickSuggestion(0)
            && forall i :: 2 <= i < |r.actions| ==> !r.actions[i].PickSuggestion?
  {
    var r := ClaimRunOver(employeeName, eventName, currency, true, suggestions, ev, cur, sub);
    var picked := [Fill(EmployeeNameField, employeeName), PickSuggestion(0)];
    if !ev.result {
      NothingPickedAfter(r.actions, picked, ev.actions);
    } else if !cur.result {
      NothingPickedAfter(r.actions, picked, ev.actions + cur.actions);
    } else {
      NothingPickedAfter(r.actions, picked, ev.actions + cur.actions + sub.actions);
    }
  }

  /** Past `head`, an action list picks only what its `tail` picks. */
  lemma NothingPickedAfter(actions: seq<Action>, head: seq<Action>, tail: seq<Action>)
    requires actions == head + tail
    requires forall a :: a in tail ==> !a.PickSuggestion?
    ensures |actions| >= |head| && actions[..|head|] == head
    ensures forall i :: |head| <= i < |actions| ==> !actions[i].PickSuggestion?
  {
    forall i | |head| <= i < |actions| ensures !actions[i].PickSuggestion? {
      assert actions[i] == tail[i - |head|];
    }
  }

  /** A dropdown selection picks no suggestion. */
  lemma SelectionPicksNothing(field: string, view: DropdownView, wanted: string, caseSensitive: bool)
    ensures forall a :: a in SelectionRun(field, view, wanted, caseSensitive).actions ==> !a.PickSuggestion?
  {
    SelectionStaysOnField(field, view, wanted, caseSensitive);
  }

  /** The remarks, the submit and the confirmation pick no suggestion. */
  lemma SubmitRunPicksNothing(remarks: Option<string>, form: ClaimForm)
    ensures forall a :: a in SubmitRun(remarks, form).actions ==> !a.PickSuggestion?
  {
    ConfirmationOnlyWaits(form);
  }

  /** The Event dropdown is set before the Currency dropdown: when the event is
      not selected the claim fails with the event's message and the Currency
      dropdown is never touched, nor is anything submitted. */
  lemma EventBeforeCurrency(employeeName: string, eventName: string, currency: string, remarks: Option<string>,
                            caseSensitive: bool, form: ClaimForm)
    requires form.nameFieldShown && form.suggestions > 0
    requires !SelectionRun(EventField, form.event, eventName, caseSensitive).result
    ensures var r := ClaimRun(employeeName, eventName, currency, remarks, caseSensitive, form);
            && r.result == Failed(EventNotFoundMessage(eventName))
            && (forall a :: a in r.actions ==> !Touches(a, CurrencyField) && !Touches(a, RemarksField) && a != Submit)
  {
    SelectionStaysOnField(EventField, form.event, eventName, caseSensitive);
  }

  /** When the event is selected but the currency is not, the claim fails with
      the currency's message and nothing is written to the remarks or
      submitted. */
  lemma CurrencyFailureReported(employeeName: string, eventName: string, currency: string, remarks: Option<string>,
                                caseSensitive: bool, form: ClaimForm)
    requires form.nameFieldShown && form.suggestions > 0
    requires SelectionRun(EventField, form.event, eventName, caseSensitive).result
    requires !SelectionRun(CurrencyField, form.currency, currency, caseSensitive).result
    ensures var r := ClaimRun(employeeName, eventName, currency, remarks, caseSensitive, form);
            && r.result == Failed(CurrencyNotFoundMessage(currency))
            && (forall a :: a in r.actions ==> !Touches(a, RemarksField) && a != Submit)
  {
    SelectionStaysOnField(EventField, form.event, eventName, caseSensitive);
    SelectionStaysOnField(CurrencyField, form.currency, currency, caseSensitive);
  }

  /** The remarks input is written only when remarks were given, and then with
      exactly those remarks. */
  lemma RemarksOnlyWhenGiven(employeeName: string, eventName: string, currency: string, remarks: Option<string>,
                             caseSensitive: bool, form: ClaimForm)
    ensures var r := ClaimRun(employeeName, eventName, currency, remarks, caseSensitive, form);
            && (IsNullOrEmpty(remarks) ==> forall a :: a in r.actions ==> !Touches(a, RemarksField))
            && (forall a :: a in r.actions && Touches(a, RemarksField) ==> a == Fill(RemarksField, remarks.value))
            && (Submit in r.actions && !IsNullOrEmpty(remarks) ==> Fill(RemarksField, remarks.value) in r.actions)
  {
    SelectionStaysOnField(EventField, form.event, eventName, caseSensitive);
    SelectionStaysOnField(CurrencyField, form.currency, currency, caseSensitive);
    SubmitWritesGivenRemarks(remarks, form);
    RemarksOver(employeeName, eventName, currency, remarks, form.nameFieldShown, form.suggestions,
                SelectionRun(EventField, form.event, eventName, caseSensitive),
                SelectionRun(CurrencyField, form.currency, currency, caseSensitive),
                SubmitRun(remarks, form));
  }

  /** The submit step writes the remarks only when they were given, with
      exactly those remarks, and before its click. */
  lemma SubmitWritesGivenRemarks(remarks: Option<string>, form: ClaimForm)
    ensures var sub := SubmitRun(remarks, form);
            && (IsNullOrEmpty(remarks) ==> forall a :: a in sub.actions ==> !Touches(a, RemarksField))
            && (forall a :: a in sub.actions && Touches(a, RemarksField) ==> a == Fill(RemarksField, remarks.value))
            && (Submit in sub.actions && !IsNullOrEmpty(remarks) ==> Fill(RemarksField, remarks.value) in sub.actions)
  {
    ConfirmationOnlyWaits(form);
  }

  /** RemarksOnlyWhenGiven, for any selections that keep off the remarks
      input and the Create button, and any submit step that writes the given
      remarks before its click. */
  lemma RemarksOver(employeeName: string, eventName: string, currency: string, remarks: Option<string>,
                    nameFieldShown: bool, suggestions: nat, ev: Run<bool>, cur: Run<bool>, sub: Run<Outcome>)
    requires forall a :: a in ev.actions ==> !Touches(a, RemarksField) && a != Submit
    requires forall a :: a in cur.actions ==> !Touches(a, RemarksField) && a != Submit
    requires IsNullOrEmpty(remarks) ==> forall a :: a in sub.actions ==> !Touches(a, RemarksField)
    requires forall a :: a in sub.actions && Touches(a, RemarksField) ==> a == Fill(RemarksField, remarks.value)
    requires Submit in sub.actions && !IsNullOrEmpty(remarks) ==> Fill(RemarksField, remarks.value) in sub.actions
    ensures var r := ClaimRunOver(employeeName, eventName, currency, nameFieldShown, suggestions, ev, cur, sub);
            && (IsNullOrEmpty(remarks) ==> forall a :: a in r.actions ==> !Touches(a, RemarksField))
            && (forall a :: a in r.actions && Touches(a, RemarksField) ==> a == Fill(RemarksField, remarks.value))
            && (Submit in r.actions && !IsNullOrEmpty(remarks) ==> Fill(RemarksField, remarks.value) in r.actions)
  {
  }

  /** The Create button is clicked exactly when the employee was picked, both
      dropdowns were set, any remarks were written and the button appeared. */
  lemma SubmittedIffEverythingFilled(employeeName: string, eventName: string, currency: string, remarks: Option<string>,
                                     caseSensitive: bool, form: ClaimForm)
    ensures Submit in ClaimRun(employeeName, eventName, currency, remarks, caseSensitive, form).actions
            <==> && form.nameFieldShown && form.suggestions > 0
                 && SelectionRun(EventField, form.event, eventName, caseSensitive).result
                 && SelectionRun(CurrencyField, form.currency, currency, caseSensitive).result
                 && (IsNullOrEmpty(remarks) || form.remarksFieldShown)
                 && form.createButtonShown
  {
    SelectionStaysOnField(EventField, form.event, eventName, caseSensitive);
    SelectionStaysOnField(CurrencyField, form.currency, currency, caseSensitive);
    ConfirmationOnlyWaits(form);
  }

  /** An error toast without a success toast ends the claim at once: no dialog,
      URL or reference-id wait follows. A success toast means the error toast
      is never looked for. */
  lemma ErrorToastShortCircuits(form: ClaimForm)
    ensures !form.successToast && form.errorToast ==>
              && ConfirmationRun(form).result == Failed(ErrorToastMessage)
              && Await(ClaimDialog) !in ConfirmationRun(form).actions
              && Await(ClaimDetailPage) !in ConfirmationRun(form).actions
    ensures form.successToast ==> Await(ErrorToast) !in ConfirmationRun(form).actions
    ensures !form.successToast ==> Await(ErrorToast) in ConfirmationRun(form).actions
  {
  }

  /** Once submitted, the claim succeeds exactly when no lone error toast
      appeared, the address reached the claim-detail pattern and a non-blank
      reference id was read; its value is that id, trimmed. A missed address
      gives the navigation message whatever the toasts or the dialog did. */
  lemma ConfirmationDecides(form: ClaimForm)
    ensures var r := ConfirmationRun(form).result;
            && (r.success <==> (form.successToast || !form.errorToast) && IsClaimDetailUrl(form.claimUrl)
                               && form.reference.ReferenceShown? && !IsNullOrWhiteSpace(form.reference.value))
            && (r.success ==> r.value == ExtractReferenceId(form.reference))
            && ((form.successToast || !form.errorToast) && !IsClaimDetailUrl(form.claimUrl) ==> r == Failed(NavigationMessage))
            && (r == Failed(NavigationMessage) <==> (form.successToast || !form.errorToast) && !IsClaimDetailUrl(form.claimUrl))
  {
    ReferenceIdIsTrimmed(form.reference);
  }

  /** The confirmation cascade's outcome is well formed; a success carries a
      non-empty reference id with no white space at either end. */
  lemma ConfirmationWellFormed(form: ClaimForm)
    ensures var c := ConfirmationRun(form).result;
            && WellFormed(c)
            && (c.success ==> var id := c.value.value;
                              id != [] && !IsWhiteSpace(id[0]) && !IsWhiteSpace(id[|id| - 1]))
            && (!c.success ==> c.error.value in {ClaimErrorMessage, ErrorToastMessage, NavigationMessage, NoReferenceMessage})
  {
    ReferenceIdIsTrimmed(form.reference);
  }

  /** Every claim outcome is well formed; a success carries a non-empty
      reference id with no white space at either end, and a failure one of the
      page's messages. */
  lemma ClaimOutcomeWellFormed(employeeName: string, eventName: string, currency: string, remarks: Option<string>,
                               caseSensitive: bool, form: ClaimForm)
    ensures var r := ClaimRun(employeeName, eventName, currency, remarks, caseSensitive, form).result;
            && WellFormed(r)
            && (r.success ==> var id := r.value.value;
                              id != [] && !IsWhiteSpace(id[0]) && !IsWhiteSpace(id[|id| - 1])
                              && Submit in ClaimRun(employeeName, eventName, currency, remarks, caseSensitive, form).actions)
            && (!r.success ==> r.error.value in {ClaimErrorMessage, ErrorToastMessage, NavigationMessage, NoReferenceMessage,
                                                 NoSuggestionMessage(employeeName), EventNotFoundMessage(eventName),
                                                 CurrencyNotFoundMessage(currency)})
  {
    var run := ClaimRun(employeeName, eventName, currency, remarks, caseSensitive, form);
    var ev := SelectionRun(EventField, form.event, eventName, caseSensitive);
    var cur := SelectionRun(CurrencyField, form.currency, currency, caseSensitive);
    if form.nameFieldShown && form.suggestions > 0 && ev.result && cur.result {
      var chosen := ChoiceActions(employeeName, eventName, currency, caseSensitive, form);
      var sub := SubmitRun(remarks, form);
      assert run == Run(sub.result, chosen + sub.actions);
      if (IsNullOrEmpty(remarks) || form.remarksFieldShown) && form.createButtonShown {
        var conf := ConfirmationRun(form);
        ConfirmationWellFormed(form);
        assert sub.actions == RemarksActions(remarks) + [Submit] + conf.actions;
        assert run.actions[|chosen| + |RemarksActions(remarks)|] == Submit;
      }
    }
  }
}
