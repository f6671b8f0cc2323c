/** The browser session, reduced to what the flows do with it: the ordered
    actions they perform, whether a dropdown list is open, and whether the
    session has been quit and disposed. What the page shows in reply is not
    held here; each flow receives it as an observation record. */
module Driver {

  /** Conditions a flow waits for. */
  datatype Signal =
    | SpinnerGone
    | SuccessToast
    | ErrorToast
    | PersonalDetailsHeader
    | ClaimDialog
    | ClaimDetailPage
    | ReferenceIdInput

  datatype Action =
    | LogIn
    | Navigate(menu: string)
    | OpenDropdown(field: string)
    | ReadOption(field: string, index: nat)
    | ClickOption(field: string, index: nat)
    | ClickBody
    | Fill(field: string, text: string)
    | InjectId(id: string)
    | PickSuggestion(index: nat)
    | Submit
    | Await(signal: Signal)

  /** Action `a` works on the input or dropdown labelled `name`. */
  predicate Touches(a: Action, name: string) {
    (a.OpenDropdown? || a.ReadOption? || a.ClickOption? || a.Fill?) && a.field == name
  }

  /** What a step returns together with the actions it performed. */
  datatype Run<T> = Run(result: T, actions: seq<Action>)

  /** After `trace`, a dropdown list is open: the last action that opens or
      closes one opened it. */
  predicate OpenAfter(trace: seq<Action>)
    decreases |trace|
  {
    if trace == [] then false
    else
      match trace[|trace| - 1]
      case OpenDropdown(_) => true
      case ClickOption(_, _) => false
      case ClickBody => false
      case _ => OpenAfter(trace[..|trace| - 1])
  }

  /** Appending actions in two steps appends them in one. */
  lemma AppendInSteps(t: seq<Action>, a: seq<Action>, b: seq<Action>)
    ensures t + a + b == t + (a + b)
  {
  }

  class Browser {
    var trace: seq<Action>
    var dropdownOpen: bool
    var released: bool

    predicate Valid()
      reads this
    {
      dropdownOpen == OpenAfter(trace)
    }

    constructor ()
      ensures Valid() && trace == [] && !dropdownOpen && !released
    {
      trace, dropdownOpen, released := [], false, false;
    }

    /** Performs one action on a live session. */
    method Perform(a: Action)
      requires Valid() && !released
      modifies this
      ensures Valid() && !released
      ensures trace == old(trace) + [a]
    {
      assert (trace + [a])[..|trace|] == trace;
      trace := trace + [a];
      match a
      case OpenDropdown(_) => dropdownOpen := true;
      case ClickOption(_, _) => dropdownOpen := false;
      case ClickBody => dropdownOpen := false;
      case _ =>
    }

    /** `Quit` followed by `Dispose`. */
    method QuitAndDispose()
      requires Valid()
      modifies this
      ensures Valid() && released
      ensures trace == old(trace) && dropdownOpen == old(dropdownOpen)
    {
      released := true;
    }
  }
}
