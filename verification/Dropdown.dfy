/** Dropdown option resolution (`SelectDropdownOptionAsync`, written twice in
    the source with the same body, once per page). */
module Dropdown {
  import opened Text
  import opened Driver

  /** What the driver finds when the flow reaches a dropdown. */
  datatype DropdownView =
      /** The dropdown did not appear within the wait; the time-out is caught. */
    | Absent
      /** The dropdown opened and listed `options` (raw texts, in display
          order). When `faultAt` names an index inside the list, handling that
          option throws (a stale element) and the handler returns false. */
    | Shown(options: seq<string>, faultAt: Option<nat>)

  /** The option text, trimmed, equals the requested wanted: ordinal equality
      when `caseSensitive`, ordinal-ignore-case equality otherwise. */
  predicate Matches(optionText: string, wanted: string, caseSensitive: bool) {
    var text := Trim(optionText);
    if caseSensitive then text == wanted else EqualsIgnoreCase(text, wanted)
  }

  /** The first index at or after `from` whose option matches. */
  function FirstMatchFrom(options: seq<string>, wanted: string, caseSensitive: bool, from: nat): (r: Option<nat>)
    requires from <= |options|
    decreases |options| - from
    ensures r.Some? ==> from <= r.value < |options|
  {
    if from == |options| then None
    else if Matches(options[from], wanted, caseSensitive) then Some(from)
    else FirstMatchFrom(options, wanted, caseSensitive, from + 1)
  }

  /** FirstMatchFrom finds a matching option with no match before it, or
      reports that no option from `from` on matches. */
  lemma {:induction false} FirstMatchFromSpec(options: seq<string>, wanted: string, caseSensitive: bool, from: nat)
    requires from <= |options|
    decreases |options| - from
    ensures var r := FirstMatchFrom(options, wanted, caseSensitive, from);
            && (r.Some? ==> Matches(options[r.value], wanted, caseSensitive))
            && (r.Some? ==> forall j :: from <= j < r.value ==> !Matches(options[j], wanted, caseSensitive))
            && (r.None? ==> forall j :: from <= j < |options| ==> !Matches(options[j], wanted, caseSensitive))
  {
    if from < |options| && !Matches(options[from], wanted, caseSensitive) {
      FirstMatchFromSpec(options, wanted, caseSensitive, from + 1);
    }
  }

  /** How many options the scan can handle before a fault stops it. */
  function Reach(options: seq<string>, faultAt: Option<nat>): (n: nat)
    ensures n <= |options|
  {
    if faultAt.Some? && faultAt.value < |options| then faultAt.value else |options|
  }

  /** `ReadOption(field, 0) .. ReadOption(field, n - 1)`, in that order. */
  function Reads(field: string, n: nat): seq<Action> {
    if n == 0 then [] else Reads(field, n - 1) + [ReadOption(field, n - 1)]
  }

  lemma {:induction false} ReadsContent(field: string, n: nat)
    ensures |Reads(field, n)| == n
    ensures forall a :: a in Reads(field, n) <==> a.ReadOption? && a.field == field && a.index < n
  {
    if n > 0 {
      ReadsContent(field, n - 1);
    }
  }

  /** The outcome and the actions of one selection: open the dropdown, read
      options in order until one matches, click it; if none does, click the
      page body to close the list. */
  function SelectionRun(field: string, view: DropdownView, wanted: string, caseSensitive: bool): Run<bool> {
    match view
    case Absent => Run(false, [])
    case Shown(options, faultAt) =>
      var reach := Reach(options, faultAt);
      var first := FirstMatchFrom(options, wanted, caseSensitive, 0);
      if first.Some? && first.value < reach then
        Run(true, [OpenDropdown(field)] + Reads(field, first.value + 1) + [ClickOption(field, first.value)])
      else if reach < |options| then
        Run(false, [OpenDropdown(field)] + Reads(field, reach))
      else
        Run(false, [OpenDropdown(field)] + Reads(field, |options|) + [ClickBody])
  }

  method SelectDropdownOption(driver: Browser, field: string, view: DropdownView, wanted: string, caseSensitive: bool)
    returns (selected: bool)
    requires driver.Valid() && !driver.released
    modifies driver
    ensures driver.Valid() && !driver.released
    ensures selected == SelectionRun(field, view, wanted, caseSensitive).result
    ensures driver.trace == old(driver.trace) + SelectionRun(field, view, wanted, caseSensitive).actions
  {
    if view.Absent? {
      // the wait for the list times out and the handler returns false
      selected := false;
    } else {
      var reach := Reach(view.options, view.faultAt);
      driver.Perform(OpenDropdown(field));
      var scanned := ScanOptions(driver, field, view.options, reach, wanted, caseSensitive);
      selected := scanned.Some?;
      if scanned.Some? {
        AppendInSteps(old(driver.trace), [OpenDropdown(field)], Reads(field, scanned.value + 1) + [ClickOption(field, scanned.value)]);
        AppendInSteps([OpenDropdown(field)], Reads(field, scanned.value + 1), [ClickOption(field, scanned.value)]);
      } else if reach == |view.options| {
        driver.Perform(ClickBody);
        AppendInSteps(old(driver.trace), [OpenDropdown(field)], Reads(field, reach));
        AppendInSteps(old(driver.trace) + [OpenDropdown(field)], Reads(field, reach), [ClickBody]);
        AppendInSteps(old(driver.trace), [OpenDropdown(field)] + Reads(field, reach), [ClickBody]);
      } else {
        AppendInSteps(old(driver.trace), [OpenDropdown(field)], Reads(field, reach));
      }
    }
  }

  /** Reads the options of an open list in order, up to `reach`, and clicks
      the first that matches. */
  method ScanOptions(driver: Browser, field: string, options: seq<string>, reach: nat, wanted: string, caseSensitive: bool)
    returns (clicked: Option<nat>)
    requires driver.Valid() && !driver.released && reach <= |options|
    modifies driver
    ensures driver.Valid() && !driver.released
    ensures var first := FirstMatchFrom(options, wanted, caseSensitive, 0);
            clicked == (if first.Some? && first.value < reach then first else None)
    ensures clicked.Some? ==> driver.trace == old(driver.trace) + Reads(field, clicked.value + 1) + [ClickOption(field, clicked.value)]
    ensures clicked.None? ==> driver.trace == old(driver.trace) + Reads(field, reach)
  {
    var i := 0;
    while i < reach
      invariant 0 <= i <= reach
      invariant driver.Valid() && !driver.released
      invariant driver.trace == old(driver.trace) + Reads(field, i)
      // no option before `i` matches
      invariant FirstMatchFrom(options, wanted, caseSensitive, 0) == FirstMatchFrom(options, wanted, caseSensitive, i)
    {
      driver.Perform(ReadOption(field, i));
      AppendInSteps(old(driver.trace), Reads(field, i), [ReadOption(field, i)]);
      if Matches(options[i], wanted, caseSensitive) {
        driver.Perform(ClickOption(field, i));
        return Some(i);
      }
      i := i + 1;
    }
    clicked := None;
  }

  /** A selection succeeds exactly when the list appeared and one of the
      options the scan reached matches; without a fault, that is when some
      option matches. */
  lemma SelectedIffSomeOptionMatches(field: string, view: DropdownView, wanted: string, caseSensitive: bool)
    ensures SelectionRun(field, view, wanted, caseSensitive).result
            <==> view.Shown? && exists k :: 0 <= k < Reach(view.options, view.faultAt)
                                            && Matches(view.options[k], wanted, caseSensitive)
    ensures view.Shown? && view.faultAt.None? ==>
              (SelectionRun(field, view, wanted, caseSensitive).result
               <==> exists k :: 0 <= k < |view.options| && Matches(view.options[k], wanted, caseSensitive))
  {
    if view.Shown? {
      var first := FirstMatchFrom(view.options, wanted, caseSensitive, 0);
      FirstMatchFromSpec(view.options, wanted, caseSensitive, 0);
      if first.Some? && first.value < Reach(view.options, view.faultAt) {
        assert Matches(view.options[first.value], wanted, caseSensitive);
      }
    }
  }

  /** The only option clicked is the first match in display order. */
  lemma ClicksFirstMatch(field: string, view: DropdownView, wanted: string, caseSensitive: bool, k: nat)
    requires ClickOption(field, k) in SelectionRun(field, view, wanted, caseSensitive).actions
    ensures view.Shown? && k < |view.options| && Matches(view.options[k], wanted, caseSensitive)
    ensures forall j :: 0 <= j < k ==> !Matches(view.options[j], wanted, caseSensitive)
  {
    var r := SelectionRun(field, view, wanted, caseSensitive);
    var first := FirstMatchFrom(view.options, wanted, caseSensitive, 0);
    FirstMatchFromSpec(view.options, wanted, caseSensitive, 0);
    ReadsContent(field, |view.options|);
    ReadsContent(field, Reach(view.options, view.faultAt));
    if first.Some? {
      ReadsContent(field, first.value + 1);
    }
  }

  /** An option is examined only while every earlier option has failed to
      match: nothing after the first match is looked at. */
  lemma ExaminesNothingAfterFirstMatch(field: string, view: DropdownView, wanted: string, caseSensitive: bool, k: nat)
    requires ReadOption(field, k) in SelectionRun(field, view, wanted, caseSensitive).actions
    ensures view.Shown? && k < |view.options|
    ensures forall j :: 0 <= j < k ==> !Matches(view.options[j], wanted, caseSensitive)
  {
    var first := FirstMatchFrom(view.options, wanted, caseSensitive, 0);
    FirstMatchFromSpec(view.options, wanted, caseSensitive, 0);
    ReadsContent(field, |view.options|);
    ReadsContent(field, Reach(view.options, view.faultAt));
    if first.Some? {
      ReadsContent(field, first.value + 1);
    }
  }

  /** A selection leaves a dropdown list open exactly when a fault interrupted
      the scan: a failed selection otherwise always closes it. */
  lemma LeftOpenOnlyByFault(trace: seq<Action>, field: string, view: DropdownView, wanted: string, caseSensitive: bool)
    requires view.Shown?
    ensures var r := SelectionRun(field, view, wanted, caseSensitive);
            OpenAfter(trace + r.actions) <==> !r.result && Reach(view.options, view.faultAt) < |view.options|
  {
    var r := SelectionRun(field, view, wanted, caseSensitive);
    var reach := Reach(view.options, view.faultAt);
    var first := FirstMatchFrom(view.options, wanted, caseSensitive, 0);
    var t := trace + r.actions;
    if !(first.Some? && first.value < reach) && reach < |view.options| {
      var afterOpen := trace + [OpenDropdown(field)];
      assert t == afterOpen + Reads(field, reach);
      assert afterOpen[|afterOpen| - 1] == OpenDropdown(field);
      OpenAfterReads(afterOpen, field, reach);
    } else {
      assert t[|t| - 1].ClickOption? || t[|t| - 1] == ClickBody;
    }
  }

  /** Reading options does not change whether the list is open. */
  lemma {:induction false} OpenAfterReads(trace: seq<Action>, field: string, n: nat)
    ensures OpenAfter(trace + Reads(field, n)) == OpenAfter(trace)
  {
    if n > 0 {
      var t := trace + Reads(field, n);
      assert t[..|t| - 1] == trace + Reads(field, n - 1);
      OpenAfterReads(trace, field, n - 1);
    } else {
      assert trace + Reads(field, n) == trace;
    }
  }

  /** Labels that differ only in ASCII letter case select the same option
      when matching ignores case, and not when it is case-sensitive. */
  lemma CaseOnlyDifference(optionText: string, wanted: string)
    requires |Trim(optionText)| == |wanted| && Trim(optionText) != wanted
    requires forall i :: 0 <= i < |wanted| ==> UpperAscii(Trim(optionText)[i]) == UpperAscii(wanted[i])
    ensures Matches(optionText, wanted, false)
    ensures !Matches(optionText, wanted, true)
  {
    EqualsIgnoreCasePointwise(Trim(optionText), wanted);
  }

  /** Every action of a selection concerns its own dropdown or the page body. */
  lemma SelectionStaysOnField(field: string, view: DropdownView, wanted: string, caseSensitive: bool)
    ensures forall a :: a in SelectionRun(field, view, wanted, caseSensitive).actions ==>
              a == ClickBody || (a.OpenDropdown? && a.field == field)
              || (a.ReadOption? && a.field == field) || (a.ClickOption? && a.field == field)
  {
    if view.Absent? { return; }
    var actions := SelectionRun(field, view, wanted, caseSensitive).actions;
    var reach := Reach(view.options, view.faultAt);
    var first := FirstMatchFrom(view.options, wanted, caseSensitive, 0);
    var n := if first.Some? && first.value < reach then first.value + 1 else reach;
    var last: seq<Action> :=
      if first.Some? && first.value < reach then [ClickOption(field, first.value)]
      else if reach < |view.options| then []
      else [ClickBody];
    assert actions == [OpenDropdown(field)] + Reads(field, n) + last;
    ReadsContent(field, n);
  }
}
