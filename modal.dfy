/** The "Stay Informed" dialog (`StayInformedModal`). Its submit handler
    runs in two phases: a start phase when the form is submitted, and a
    completion phase when the one-second timer fires. The completion reads
    the address as it was when the submit began, so it takes that captured
    address as a parameter. */
module StayInformedModal {

  const InvalidAddressMessage: string := "Please enter a valid email address."

  /** The dialog's React state; the error is a string, empty meaning none. */
  datatype ModalState = ModalState(email: string, submitting: bool, success: bool, error: string)

  /** `email.includes("@")`: the only check the dialog makes. */
  predicate Accepts(captured: string)
    ensures Accepts(captured) <==> exists i :: 0 <= i < |captured| && captured[i] == '@'
  {
    '@' in captured
  }

  /** The start phase: submitting, no error, no success; the address is
      kept. */
  function Started(s: ModalState): (t: ModalState)
    ensures t.submitting && t.error == "" && !t.success
    ensures t.email == s.email
  {
    s.(submitting := true, error := "", success := false)
  }

  /** The completion phase for the captured address: an address with `@`
      succeeds and clears the input; any other shows the error and leaves
      success and the input alone. `submitting` ends false either way. */
  function Completed(s: ModalState, captured: string): (t: ModalState)
    ensures !t.submitting
    ensures Accepts(captured) ==> t.success && t.email == "" && t.error == s.error
    ensures !Accepts(captured) ==>
              t.error == InvalidAddressMessage && t.success == s.success && t.email == s.email
  {
    if Accepts(captured) then s.(success := true, email := "", submitting := false)
    else s.(error := InvalidAddressMessage, submitting := false)
  }

  /** One submission run to completion: exactly one of success and a
      non-empty error holds, and success is exactly the presence of `@`. */
  lemma CompletionExclusive(s: ModalState, captured: string)
    ensures var t := Completed(Started(s), captured);
            && !t.submitting
            && (t.success <==> Accepts(captured))
            && (t.success <==> t.error == "")
  {
  }

  /** The verdict depends on nothing but the presence of `@`. */
  lemma AcceptanceOnlyByAt(s: ModalState, a: string, b: string)
    requires Accepts(a) == Accepts(b)
    ensures Completed(s, a).success == Completed(s, b).success
    ensures Completed(s, a).error == Completed(s, b).error
  {
  }

  /** Even a lone `@` is accepted. */
  lemma LoneAtAccepted(s: ModalState)
    ensures Completed(Started(s), "@").success
  {
    assert "@"[0] == '@';
  }

  /** Nothing inside the handler stops a second run while the first is
      pending. If the handler runs with an address without `@`, and runs
      again with a corrected address before the first timer fires, both
      timers complete and the state holds success and an error at once. */
  lemma OverlappingSubmitsShowBoth(s: ModalState, first: string, second: string)
    requires !Accepts(first) && Accepts(second)
    ensures var pending := Started(Started(s.(email := first)).(email := second));
            var t := Completed(Completed(pending, first), second);
            t.success && t.error == InvalidAddressMessage
  {
  }

  /** The dialog component. */
  class Modal {
    var email: string
    var submitting: bool
    var success: bool
    var error: string

    function State(): ModalState
      reads this
    {
      ModalState(email, submitting, success, error)
    }

    constructor ()
      ensures State() == ModalState("", false, false, "")
    {
      email := "";
      submitting := false;
      success := false;
      error := "";
    }

    /** The input's change handler. */
    method SetEmail(v: string)
      modifies this
      ensures State() == old(State()).(email := v)
    {
      email := v;
    }

    /** `handleSubmit` up to scheduling the timer; returns the address the
        timer callback will see. */
    method Start() returns (captured: string)
      modifies this
      ensures State() == Started(old(State()))
      ensures captured == old(email)
    {
      captured := email;
      submitting := true;
      error := "";
      success := false;
    }

    /** The timer callback, run with the address captured at the start. */
    method Complete(captured: string)
      modifies this
      ensures State() == Completed(old(State()), captured)
    {
      if '@' in captured {
        success := true;
        email := "";
      } else {
        error := InvalidAddressMessage;
      }
      submitting := false;
    }
  }
}
