/** The inline signup banner (`MailerLiteInlineBanner`): the page-wide
    anonymous identifier, the submit flow with its three error messages,
    and the Dismiss and Close buttons.

    The browser environment is explicit: Window holds the global
    identifier slot and the stored copy, and the response of the `fetch`
    is an input (Response) rather than a network call. Each operation is
    a method of a class whose contract ties the new state to a pure
    transition function over the state as a value; the lemmas are stated
    about those functions. */
module MailerLiteBanner {
  import opened Optional
  import opened JsText
  import opened Guid
  import opened EmailValidation

  const InvalidEmailMessage: string := "Please enter a valid email."
  const SubmissionFailedMessage: string := "Submission failed. Try again."
  const NetworkErrorMessage: string := "Network error. Try again."

  // ---------------------------------------------------------------------
  // The anonymous identifier
  // ---------------------------------------------------------------------

  /** The identifier's storage: the global slot `window.ml_guid_string`
      (the empty string standing for "unset"), the stored copy
      `localStorage.ml_guid`, and whether writing that copy succeeds (false
      when there is no local storage or the write throws). */
  datatype GuidStore = GuidStore(global: string, stored: Option<string>, writable: bool)

  /** The stored copy as the `||` chain reads it: absent counts as empty. */
  function StoredText(stored: Option<string>): string
  {
    if stored.Some? then stored.value else ""
  }

  /** The identifier-initialisation effect, generate-if-absent: a non-empty
      global identifier is kept; otherwise a non-empty stored one is adopted
      globally; otherwise a fresh token is set globally and, if storage
      accepts it, stored. A failed write changes nothing else. */
  function Initialized(g: GuidStore, rs: seq<nat>): (h: GuidStore)
    requires ValidDraws(rs)
    ensures h.global != "" && h.writable == g.writable
    ensures g.global != "" ==> h == g
    ensures g.global == "" && StoredText(g.stored) != "" ==>
              h.global == g.stored.value && h.stored == g.stored
    ensures g.global == "" && StoredText(g.stored) == "" ==>
              && h.global == GenerateGuid(rs)
              && GuidShaped(h.global)
              && h.stored == (if g.writable then Some(h.global) else g.stored)
  {
    var current := if g.global != "" then g.global else StoredText(g.stored);
    if current != "" then
      g.(global := current)
    else
      var token := GenerateGuid(rs);
      g.(global := token, stored := if g.writable then Some(token) else g.stored)
  }

  /** Running the initialisation again, with any draws, changes nothing. */
  lemma InitIdempotent(g: GuidStore, rs: seq<nat>, rs': seq<nat>)
    requires ValidDraws(rs) && ValidDraws(rs')
    ensures Initialized(Initialized(g, rs), rs') == Initialized(g, rs)
  {
  }

  /** After initialisation the global identifier is the one that was
      already there, the stored one, or a freshly generated well-shaped
      token; an identifier that was already present is never replaced. */
  lemma InitKeepsOrGenerates(g: GuidStore, rs: seq<nat>)
    requires ValidDraws(rs)
    ensures var h := Initialized(g, rs);
            || (g.global != "" && h.global == g.global)
            || (g.global == "" && g.stored == Some(h.global))
            || (h.global == GenerateGuid(rs) && GuidShaped(h.global))
  {
  }

  /** The browser window as far as the banner uses it. */
  class Window {
    var guid: string
    var stored: Option<string>
    var storageWritable: bool

    function Store(): GuidStore
      reads this
    {
      GuidStore(guid, stored, storageWritable)
    }

    /** A fresh page load: the global slot is unset, storage is whatever
        earlier sessions left. */
    constructor (stored: Option<string>, storageWritable: bool)
      ensures Store() == GuidStore("", stored, storageWritable)
    {
      this.guid := "";
      this.stored := stored;
      this.storageWritable := storageWritable;
    }

    /** The banner's mount effect. */
    method InitGuid(rs: seq<nat>)
      requires ValidDraws(rs)
      modifies this
      ensures Store() == Initialized(old(Store()), rs)
    {
      guid := if guid != "" then guid else StoredText(stored);
      if guid == "" {
        var g := GenerateGuid(rs);
        guid := g;
        // the storage write may throw; the exception is swallowed
        if storageWritable {
          stored := Some(g);
        }
      }
    }
  }

  // ---------------------------------------------------------------------
  // The submission and its response
  // ---------------------------------------------------------------------

  /** The JSON body sent: `{ fields: { email }, guid }`. */
  datatype Payload = Payload(email: string, guid: string)

  /** What `res.json()` yields, after `.catch(() => ({}))`:
      - Unparseable: the body was not JSON, replaced by `{}`;
      - NullBody: the JSON value `null`, on which reading a field throws;
      - Fields: any other value, with its `success` field when that is a
        boolean and its `message` field when that is a string. */
  datatype Body = Unparseable | NullBody | Fields(success: Option<bool>, message: Option<string>)

  /** The outcome of the `fetch`: it rejected, or a response arrived. */
  datatype Response = TransportFailure | Reply(status: int, body: Body)

  datatype Outcome = Subscribed | Failed(message: string)

  /** Whether the body says `success: false` literally. */
  predicate SaysFailure(body: Body)
  {
    body.Fields? && body.success == Some(false)
  }

  /** The `message` field when it is truthy (a non-empty string). */
  function MessageOf(body: Body): Option<string>
  {
    if body.Fields? && body.message.Some? && body.message.value != "" then body.message else None
  }

  /** How the submit flow reads a response. It succeeds exactly when the
      status is 200 and the body does not say `success: false`; a `null`
      body makes the field read throw, which lands in the network-error
      handler. Every failure carries a non-empty message: the body's
      message if it has one, else the generic one. */
  function Classify(resp: Response): (o: Outcome)
    ensures o == Subscribed <==>
              resp.Reply? && resp.status == 200 && resp.body != NullBody && !SaysFailure(resp.body)
    ensures o.Failed? ==> o.message != ""
    ensures o.Failed? && (resp.TransportFailure? || resp.body == NullBody) ==>
              o.message == NetworkErrorMessage
    ensures o.Failed? && resp.Reply? && resp.body != NullBody ==>
              o.message == (if MessageOf(resp.body).Some? then MessageOf(resp.body).value
                            else SubmissionFailedMessage)
  {
    match resp
    case TransportFailure => Failed(NetworkErrorMessage)
    case Reply(status, body) =>
      if body == NullBody then Failed(NetworkErrorMessage)
      else if status == 200 && !SaysFailure(body) then Subscribed
      else Failed(if MessageOf(body).Some? then MessageOf(body).value else SubmissionFailedMessage)
  }

  /** Three response scenarios: a 200 with no usable body subscribes, a
      500 with a message shows that message, and a rejected request shows
      the network error. */
  lemma ResponseExamples()
    ensures Classify(Reply(200, Unparseable)) == Subscribed
    ensures Classify(Reply(500, Fields(None, Some("list full")))) == Failed("list full")
    ensures Classify(TransportFailure) == Failed(NetworkErrorMessage)
  {
  }

  // ---------------------------------------------------------------------
  // The widget state and its transitions
  // ---------------------------------------------------------------------

  /** The banner's React state; `error` is `null` (None) or a message. */
  datatype BannerState = BannerState(
    visible: bool, email: string, submitting: bool, error: Option<string>, success: bool)

  /** The first phase of `handleSubmit`: the error is cleared; an address
      that does not validate sets the validation message and goes no
      further; a valid one sets `submitting`. Nothing else changes. */
  function Begun(s: BannerState): (t: BannerState)
    ensures t.visible == s.visible && t.email == s.email && t.success == s.success
    ensures t.error == (if ValidateEmail(s.email) then None else Some(InvalidEmailMessage))
    ensures t.submitting == (s.submitting || ValidateEmail(s.email))
  {
    if ValidateEmail(s.email) then s.(error := None, submitting := true)
    else s.(error := Some(InvalidEmailMessage))
  }

  /** The request the first phase sends, if any: none for an address that
      does not validate; otherwise the trimmed address (itself valid and
      already trimmed) with the global identifier, or a fresh token when
      the global slot is empty. */
  function RequestFor(s: BannerState, globalGuid: string, rs: seq<nat>): (p: Option<Payload>)
    requires ValidDraws(rs)
    ensures p.Some? <==> ValidateEmail(s.email)
    ensures p.Some? ==>
              && p.value.email == Trim(s.email)
              && ValidateEmail(p.value.email)
              && Trim(p.value.email) == p.value.email
    ensures p.Some? ==> p.value.guid == (if globalGuid != "" then globalGuid else GenerateGuid(rs))
    ensures p.Some? && globalGuid == "" ==> GuidShaped(p.value.guid)
  {
    if ValidateEmail(s.email) then
      TrimInvariance(s.email);
      TrimIdempotent(s.email);
      Some(Payload(Trim(s.email), if globalGuid != "" then globalGuid else GenerateGuid(rs)))
    else
      None
  }

  /** The second phase, once the response is in: on success `success` is
      set and `visible` set to false (the callback fires); the success
      view ignores `visible`, so it stays on screen until Close. On failure
      the outcome's message is shown. `submitting` is false on every path
      and the address is untouched. */
  function Resolved(s: BannerState, resp: Response): (t: BannerState)
    ensures !t.submitting && t.email == s.email
    ensures Classify(resp) == Subscribed ==>
              t.success && !t.visible && t.error == s.error
    ensures Classify(resp).Failed? ==>
              t.error == Some(Classify(resp).message) && t.success == s.success && t.visible == s.visible
  {
    match Classify(resp)
    case Subscribed => s.(success := true, visible := false, submitting := false)
    case Failed(message) => s.(error := Some(message), submitting := false)
  }

  /** The Dismiss button: hides the banner and nothing else. */
  function Dismissed(s: BannerState): (t: BannerState)
    ensures !t.visible
    ensures t.email == s.email && t.submitting == s.submitting
    ensures t.error == s.error && t.success == s.success
  {
    s.(visible := false)
  }

  /** The Close button of the success view: leaves the success view and
      hides the banner, nothing else. */
  function Closed(s: BannerState): (t: BannerState)
    ensures !t.success && !t.visible
    ensures t.email == s.email && t.submitting == s.submitting && t.error == s.error
  {
    s.(success := false, visible := false)
  }

  lemma DismissIdempotent(s: BannerState)
    ensures Dismissed(Dismissed(s)) == Dismissed(s)
  {
  }

  /** A whole submission from the form view (success is false there) with
      a valid address: afterwards nothing is pending and exactly one of
      success and an error holds. Success sets `visible` to false, though
      the success view, which ignores it, stays shown; an error is a
      non-empty message. */
  lemma SubmitCycle(s: BannerState, resp: Response)
    requires !s.success && ValidateEmail(s.email)
    ensures var t := Resolved(Begun(s), resp);
            && !t.submitting
            && (t.success <==> Classify(resp) == Subscribed)
            && (t.success <==> t.error == None)
            && (t.success ==> !t.visible)
            && (t.error.Some? ==> t.error.value != "")
  {
  }

  /** A submission with an invalid address sends nothing and only shows the
      validation message. */
  lemma InvalidSubmitSendsNothing(s: BannerState, globalGuid: string, rs: seq<nat>)
    requires ValidDraws(rs) && !ValidateEmail(s.email)
    ensures RequestFor(s, globalGuid, rs) == None
    ensures Begun(s) == s.(error := Some(InvalidEmailMessage))
  {
  }

  /** The banner component. */
  class Banner {
    var visible: bool
    var email: string
    var submitting: bool
    var error: Option<string>
    var success: bool
    /** Whether the host page supplied an `onSuccess` callback. */
    const hasOnSuccess: bool

    function State(): BannerState
      reads this
    {
      BannerState(visible, email, submitting, error, success)
    }

    /** The component's first render. The `initiallyVisible` prop defaults
        to `false`, so a caller that omits it passes `false` here. */
    constructor (initiallyVisible: bool, hasOnSuccess: bool)
      ensures State() == BannerState(initiallyVisible, "", false, None, false)
      ensures this.hasOnSuccess == hasOnSuccess
    {
      visible := initiallyVisible;
      email := "";
      submitting := false;
      error := None;
      success := false;
      this.hasOnSuccess := hasOnSuccess;
    }

    /** The input's change handler. */
    method SetEmail(v: string)
      modifies this
      ensures State() == old(State()).(email := v)
    {
      email := v;
    }

    /** `handleSubmit` up to the `fetch`: returns the request to send, if
        any. `rs` are the draws a fresh token would use. */
    method BeginSubmit(win: Window, rs: seq<nat>) returns (request: Option<Payload>)
      requires ValidDraws(rs)
      modifies this
      ensures State() == Begun(old(State()))
      ensures request == RequestFor(old(State()), win.guid, rs)
    {
      ghost var before := State();
      var valid := ValidateEmail(email);
      error := None;
      if !valid {
        error := Some(InvalidEmailMessage);
        assert State() == before.(error := Some(InvalidEmailMessage));
        return None;
      }
      submitting := true;
      assert State() == before.(error := None, submitting := true);
      var guid := if win.guid != "" then win.guid else GenerateGuid(rs);
      request := Some(Payload(Trim(email), guid));
    }

    /** `handleSubmit` from the `fetch` on, given its response. Returns
        whether the `onSuccess` callback fires. */
    method Resolve(resp: Response) returns (notified: bool)
      modifies this
      ensures State() == Resolved(old(State()), resp)
      ensures notified <==> hasOnSuccess && Classify(resp) == Subscribed
    {
      notified := false;
      match resp {
        case TransportFailure =>
          error := Some(NetworkErrorMessage);
        case Reply(status, body) =>
          if body == NullBody {
            // reading a field of null throws; the catch shows the network error
            error := Some(NetworkErrorMessage);
          } else if status == 200 && !SaysFailure(body) {
            success := true;
            visible := false;
            notified := hasOnSuccess;
          } else {
            var message := MessageOf(body);
            error := Some(if message.Some? then message.value else SubmissionFailedMessage);
          }
      }
      submitting := false;
    }

    /** The Dismiss button. */
    method Dismiss()
      modifies this
      ensures State() == Dismissed(old(State()))
    {
      visible := false;
    }

    /** The Close button of the success view. */
    method Close()
      modifies this
      ensures State() == Closed(old(State()))
    {
      success := false;
      visible := false;
    }
  }
}
