/**
 * The waitlist sign-up dialog: field edits and interest toggles on the form
 * record, and the submit and close state machine over `isSubmitting`,
 * `isSubmitted` and `error`. The network response is an input.
 */
module WaitlistModal {

  datatype FormData = FormData(name: string, email: string, practice: string, role: string, interests: seq<string>)

  /** The `name` attributes of the form's inputs and select. */
  datatype Field = Name | Email | Practice | Role

  const EmptyForm := FormData("", "", "", "", [])

  const FailureMessage := "Something went wrong. Please try again."

  const InterestOptions := ["Session Notes", "Client Management", "Scheduling", "Billing Integration",
                            "Analytics & Reports", "Mobile App", "AI Features", "HIPAA Compliance"]

  function Get(f: FormData, field: Field): string {
    match field
    case Name => f.name
    case Email => f.email
    case Practice => f.practice
    case Role => f.role
  }

  /** `handleInputChange`: the named field takes the value, everything else is kept. */
  function SetField(f: FormData, field: Field, value: string): (r: FormData)
    ensures Get(r, field) == value
    ensures forall other: Field | other != field :: Get(r, other) == Get(f, other)
    ensures r.interests == f.interests
  {
    match field
    case Name => f.(name := value)
    case Email => f.(email := value)
    case Practice => f.(practice := value)
    case Role => f.(role := value)
  }

  predicate NoDuplicates(xs: seq<string>) {
    forall a, b | 0 <= a < b < |xs| :: xs[a] != xs[b]
  }

  /** `xs.filter(i => i !== x)`. */
  function Remove(xs: seq<string>, x: string): (r: seq<string>)
    ensures x !in r
    ensures forall y | y != x :: y in r <==> y in xs
    ensures x !in xs ==> r == xs
    decreases |xs|
  {
    if xs == [] then []
    else if xs[0] == x then Remove(xs[1..], x)
    else [xs[0]] + Remove(xs[1..], x)
  }

  lemma {:induction false} RemoveKeepsNoDuplicates(xs: seq<string>, x: string)
    requires NoDuplicates(xs)
    ensures NoDuplicates(Remove(xs, x))
    decreases |xs|
  {
    if xs != [] {
      RemoveKeepsNoDuplicates(xs[1..], x);
      if xs[0] != x {
        var rest := Remove(xs[1..], x);
        assert xs[0] !in xs[1..];
        assert xs[0] !in rest;
        var r := [xs[0]] + rest;
        forall a, b | 0 <= a < b < |r| ensures r[a] != r[b] {
          if a == 0 {
            assert r[b] in rest;
          } else {
            assert r[a] == rest[a - 1] && r[b] == rest[b - 1];
          }
        }
      }
    }
  }

  /** `handleInterestChange`: a present interest is dropped, an absent one is appended at the end. */
  function ToggleInterest(f: FormData, interest: string): (r: FormData)
    ensures r.name == f.name && r.email == f.email && r.practice == f.practice && r.role == f.role
    ensures interest in r.interests <==> interest !in f.interests
    ensures forall other | other != interest :: other in r.interests <==> other in f.interests
    ensures interest !in f.interests ==> r.interests == f.interests + [interest]
  {
    if interest in f.interests then f.(interests := Remove(f.interests, interest))
    else f.(interests := f.interests + [interest])
  }

  lemma ToggleInterestKeepsNoDuplicates(f: FormData, interest: string)
    requires NoDuplicates(f.interests)
    ensures NoDuplicates(ToggleInterest(f, interest).interests)
  {
    if interest in f.interests {
      RemoveKeepsNoDuplicates(f.interests, interest);
    } else {
      var r := f.interests + [interest];
      forall a, b | 0 <= a < b < |r| ensures r[a] != r[b] {
        if b == |f.interests| {
          assert r[a] in f.interests;
        }
      }
    }
  }

  /** The checkboxes offer only the listed options, so the chosen interests always stay among them. */
  lemma ToggleInterestKeepsOptions(f: FormData, interest: string)
    requires interest in InterestOptions
    requires forall k | 0 <= k < |f.interests| :: f.interests[k] in InterestOptions
    ensures forall k | 0 <= k < |ToggleInterest(f, interest).interests| :: ToggleInterest(f, interest).interests[k] in InterestOptions
  {
    var r := ToggleInterest(f, interest).interests;
    forall k | 0 <= k < |r| ensures r[k] in InterestOptions {
      assert r[k] in r;
      if r[k] != interest {
        assert r[k] in f.interests;
      }
    }
  }

  /**
   * Toggling the same interest twice restores the form when it was absent;
   * when it was present, it comes back at the end of the list.
   */
  lemma ToggleInterestTwice(f: FormData, interest: string)
    ensures interest !in f.interests ==> ToggleInterest(ToggleInterest(f, interest), interest) == f
    ensures interest in f.interests ==>
      ToggleInterest(ToggleInterest(f, interest), interest).interests == Remove(f.interests, interest) + [interest]
  {
    if interest !in f.interests {
      var once := f.interests + [interest];
      RemoveAppended(f.interests, interest);
      assert Remove(once, interest) == f.interests;
    }
  }

  lemma {:induction false} RemoveAppended(xs: seq<string>, x: string)
    requires x !in xs
    ensures Remove(xs + [x], x) == xs
    decreases |xs|
  {
    if xs == [] {
      assert [] + [x] == [x];
    } else {
      assert (xs + [x])[1..] == xs[1..] + [x];
      RemoveAppended(xs[1..], x);
    }
  }

  /** What `fetch` brings back: an ok response, a non-ok one with the server's text, or an exception. */
  datatype Outcome = Ok | NotOk(serverError: string) | Failed

  class WaitlistForm {
    var formData: FormData
    var isSubmitting: bool
    var isSubmitted: bool
    var error: string
    // the parent's `isOpen`, cleared by `onClose`
    var isOpen: bool

    constructor ()
      ensures formData == EmptyForm && !isSubmitting && !isSubmitted && error == "" && isOpen
    {
      formData := EmptyForm;
      isSubmitting := false;
      isSubmitted := false;
      error := "";
      isOpen := true;
    }

    method InputChange(field: Field, value: string)
      modifies this
      ensures formData == SetField(old(formData), field, value)
      ensures isSubmitting == old(isSubmitting) && isSubmitted == old(isSubmitted)
      ensures error == old(error) && isOpen == old(isOpen)
    {
      formData := SetField(formData, field, value);
    }

    method InterestChange(interest: string)
      modifies this
      ensures formData == ToggleInterest(old(formData), interest)
      ensures isSubmitting == old(isSubmitting) && isSubmitted == old(isSubmitted)
      ensures error == old(error) && isOpen == old(isOpen)
    {
      formData := ToggleInterest(formData, interest);
    }

    /** The synchronous start of `handleSubmit`; returns the body it posts. */
    method StartSubmit() returns (payload: FormData)
      modifies this
      ensures payload == formData && formData == old(formData)
      ensures isSubmitting && error == ""
      ensures isSubmitted == old(isSubmitted) && isOpen == old(isOpen)
    {
      isSubmitting := true;
      error := "";
      payload := formData;
    }

    /** The continuation after the response: the server's text is never shown. */
    method FinishSubmit(outcome: Outcome)
      modifies this
      ensures !isSubmitting
      ensures outcome.Ok? ==> isSubmitted && error == old(error)
      ensures !outcome.Ok? ==> isSubmitted == old(isSubmitted) && error == FailureMessage
      ensures formData == old(formData) && isOpen == old(isOpen)
    {
      if outcome.Ok? {
        isSubmitted := true;
      } else {
        error := FailureMessage;
      }
      isSubmitting := false;
    }

    method Submit(outcome: Outcome)
      modifies this
      ensures !isSubmitting
      ensures outcome.Ok? ==> isSubmitted && error == ""
      ensures !outcome.Ok? ==> isSubmitted == old(isSubmitted) && error == FailureMessage
      ensures formData == old(formData) && isOpen == old(isOpen)
    {
      var _ := StartSubmit();
      FinishSubmit(outcome);
    }

    /** `handleClose`, with the 300 ms delayed reset applied at once. */
    method Close()
      modifies this
      ensures old(isSubmitting) ==>
        formData == old(formData) && isSubmitting && isSubmitted == old(isSubmitted)
        && error == old(error) && isOpen == old(isOpen)
      ensures !old(isSubmitting) ==>
        formData == EmptyForm && !isSubmitting && !isSubmitted && error == "" && !isOpen
    {
      if !isSubmitting {
        isOpen := false;
        formData := EmptyForm;
        isSubmitted := false;
        error := "";
      }
    }
  }
}
