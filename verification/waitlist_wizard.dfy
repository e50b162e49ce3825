/**
 * The three-step signup wizard of the waitlist section: collect name, email and
 * phone, send a code through the phone-auth provider, confirm it, then submit
 * the entry to the waitlist action. Each handler is a function from the
 * component's state to its next state; the provider's answers are parameters,
 * and the server action runs against the table carried in the `World`.
 */
module WaitlistWizard {
  import opened Common
  import opened Text
  import PhoneInput
  import WaitlistAction

  /** The number the wizard accepts: `+91`, a digit 1-9, nine more digits, once white space is removed. */
  predicate IsIndianMobile(s: string) {
    |s| == 13 && s[..3] == PhoneInput.CountryPrefix && '1' <= s[3] <= '9' && forall i :: 4 <= i < 13 ==> IsDigit(s[i])
  }

  /** `validateIndianPhoneNumber`. */
  function ValidatePhone(phone: string): (ok: bool)
    // the explicit empty-string test is subsumed by the pattern
    ensures ok <==> IsIndianMobile(RemoveWhitespace(phone))
    ensures ok ==> phone != ""
  {
    if phone == "" then false else IsIndianMobile(RemoveWhitespace(phone))
  }

  /** White space does not count as a digit: removing it keeps the digits. */
  lemma DigitsIgnoreWhitespace(s: string)
    ensures Digits(RemoveWhitespace(s)) == Digits(s)
  {
    KeepTwice(s, NotWhitespace, IsDigit);
  }

  /** A number the wizard accepts, entered with its prefix, is also accepted by the input's indicator. */
  lemma WizardValidImpliesInputValid(phone: string)
    requires ValidatePhone(phone) && StartsWith(phone, PhoneInput.CountryPrefix)
    ensures PhoneInput.IsValid(phone)
  {
    var s := RemoveWhitespace(phone);
    DigitsIgnoreWhitespace(phone);
    assert s == "+" + s[1..];
    KeepConcat("+", s[1..], IsDigit);
    assert Digits(s[1..]) == s[1..];
  }

  /** The input's indicator accepts a number whose first local digit is 0, which the wizard refuses to send. */
  lemma LeadingZeroOnlyInputAccepts(rest: string)
    requires |rest| == 9 && AllDigits(rest)
    ensures var phone := PhoneInput.CountryPrefix + "0" + rest;
            PhoneInput.IsValid(phone) && !ValidatePhone(phone)
  {
    var phone := PhoneInput.CountryPrefix + "0" + rest;
    var tail := phone[1..];
    assert phone == "+" + tail;
    assert AllDigits(tail);
    KeepConcat("+", tail, IsDigit);
    assert |Digits(phone)| == 12;
    assert NoWhitespace(phone);
    assert phone[3] == '0';
  }

  /** The input's indicator accepts ten bare digits, which the wizard refuses without the prefix. */
  lemma BareDigitsOnlyInputAccepts(phone: string)
    requires |phone| == 10 && AllDigits(phone)
    ensures PhoneInput.IsValid(phone) && !ValidatePhone(phone)
  {
    assert !StartsWith(phone, "+");
    assert NoWhitespace(phone);
  }

  /** The grouping spaces of the display do not change the wizard's verdict. */
  lemma ValidationIgnoresGrouping(local: string)
    requires NoWhitespace(local)
    ensures ValidatePhone(PhoneInput.RenderValue(PhoneInput.CountryPrefix + local).display)
            == ValidatePhone(PhoneInput.CountryPrefix + local)
  {
    PhoneInput.RenderPrefixed(local);
    var value := PhoneInput.CountryPrefix + local;
    assert RemoveWhitespace(value) == value by {
      assert NoWhitespace(value) by {
        forall i | 0 <= i < |value|
          ensures !IsWhitespace(value[i])
        {
          if i >= 3 {
            assert value[i] == local[i - 3];
          }
        }
      }
    }
  }

  /** Typing ten digits, the first of them 1-9, and no '+' gives a number the wizard accepts. */
  lemma TypedMobileNumberAccepted(input: string)
    requires |input| >= 3 && '+' !in input && |Digits(input)| >= PhoneInput.LocalLength
    requires '1' <= Digits(input)[0] <= '9'
    ensures ValidatePhone(PhoneInput.HandleChange(input))
  {
    PhoneInput.TenTypedDigitsAreValid(input);
    var r := PhoneInput.HandleChange(input);
    assert RemoveWhitespace(r) == r;
  }

  datatype Step = InitialInfo | VerifyPhone | Success

  datatype Form = Form(name: string, email: string, phone: string)

  const EmptyForm := Form("", "", "")

  /** The provider's confirmation handle, kept opaque. */
  type Confirmation = nat

  /** The state of the section: the modal, the current step, the form and the status fields. */
  datatype Ui = Ui(
    modalOpen: bool,
    step: Step,
    form: Form,
    otp: string,
    submitting: bool,
    message: string,
    isError: bool,
    verifierReady: bool,
    confirmation: Option<Confirmation>,
    resendTimer: nat,
    phoneValid: bool)

  const InitialUi := Ui(false, InitialInfo, EmptyForm, "", false, "", false, false, None, 0, false)

  /** The seconds before a code may be requested again. */
  const ResendCooldown: nat := 30

  const SentMessage := "Verification code sent!"
  const SendFailedMessage := "Failed to send verification code. Please try again."
  const ResentMessage := "Verification code resent!"
  const ResendFailedMessage := "Failed to resend code. Please try again."
  const ConfirmFailedMessage := "Invalid verification code. Please try again."

  /** The provider's answer to a request for a code: a confirmation handle, or an error with its message. */
  datatype SendOutcome = Sent(confirmation: Confirmation) | SendFailed(reason: string)

  /** The provider's answer to a confirmation: accepted, or an error with its message. */
  datatype ConfirmOutcome = Confirmed | ConfirmFailed(reason: string)

  /** The section's state together with the waitlist table the server action writes. */
  datatype World = World(ui: Ui, table: WaitlistAction.Table)

  /** The guard of `handleSendOTP`. */
  predicate CanSend(ui: Ui) {
    ui.form.phone != "" && ui.form.name != "" && !ui.submitting && ui.verifierReady && ui.phoneValid
  }

  /** `handleSendOTP`: request a code for the phone and move to the verification step. */
  function SendOtp(ui: Ui, outcome: SendOutcome): (r: Ui)
    ensures !CanSend(ui) ==> r == ui
    ensures CanSend(ui) && outcome.Sent? ==>
              && r.step == VerifyPhone && r.confirmation == Some(outcome.confirmation)
              && r.resendTimer == ResendCooldown && !r.isError && r.message == SentMessage && r.verifierReady
    ensures CanSend(ui) && outcome.SendFailed? ==>
              && r.step == ui.step && r.isError && !r.verifierReady && r.message != ""
              && r.confirmation == ui.confirmation && r.resendTimer == ui.resendTimer
    // nothing the user typed is touched, and the handler never leaves itself marked busy
    ensures r.form == ui.form && r.otp == ui.otp && r.phoneValid == ui.phoneValid && r.modalOpen == ui.modalOpen
    ensures CanSend(ui) ==> !r.submitting
  {
    if !CanSend(ui) then ui
    else
      match outcome
      case Sent(c) =>
        ui.(confirmation := Some(c), step := VerifyPhone, resendTimer := ResendCooldown,
            message := SentMessage, isError := false, submitting := false)
      case SendFailed(reason) =>
        ui.(isError := true, message := OrElse(reason, SendFailedMessage), verifierReady := false,
            submitting := false)
  }

  /** The guard of `handleVerifyOTP`. */
  predicate CanVerify(ui: Ui) {
    ui.otp != "" && !ui.submitting && ui.confirmation != None
  }

  /** The entry the wizard submits: white space removed from the phone, and marked verified. */
  function SubmittedEntry(form: Form): (e: WaitlistAction.Entry)
    ensures e.verified == Some(true)
    ensures NoWhitespace(e.phone) && Digits(e.phone) == Digits(form.phone)
    ensures e.name == form.name && e.email == Some(form.email)
  {
    DigitsIgnoreWhitespace(form.phone);
    WaitlistAction.Entry(form.name, Some(OrElse(form.email, "")), RemoveWhitespace(form.phone), Some(true))
  }

  /**
   * `handleVerifyOTP`: confirm the code with the provider, then submit the entry
   * to the waitlist action (against the database behaviour `db` at time `now`).
   */
  function VerifyOtp(w: World, confirm: ConfirmOutcome, isEmail: EmailRule, db: WaitlistAction.Db, now: int): (r: World)
    ensures !CanVerify(w.ui) ==> r == w
    // the step becomes Success only through a confirmed code and an accepted entry
    ensures r.ui.step == Success <==>
              (if CanVerify(w.ui) && confirm.Confirmed?
               then WaitlistAction.Subscribe(w.table, SubmittedEntry(w.ui.form), isEmail, db, now).result.success
                    || w.ui.step == Success
               else w.ui.step == Success)
    ensures CanVerify(w.ui) && confirm.ConfirmFailed? ==> r.table == w.table && r.ui.isError
    ensures CanVerify(w.ui) && confirm.Confirmed? ==>
              r.table == WaitlistAction.Subscribe(w.table, SubmittedEntry(w.ui.form), isEmail, db, now).table
    ensures r.table == w.table || r.table == w.table + [WaitlistAction.NewRow(SubmittedEntry(w.ui.form), now)]
    ensures WaitlistAction.UniquePhones(w.table) && db != WaitlistAction.DbLookupError ==>
              WaitlistAction.UniquePhones(r.table)
    ensures r.ui.form == w.ui.form && r.ui.confirmation == w.ui.confirmation && r.ui.phoneValid == w.ui.phoneValid
    ensures CanVerify(w.ui) ==> !r.ui.submitting
  {
    if !CanVerify(w.ui) then w
    else
      var ui := w.ui;
      match confirm
      case ConfirmFailed(reason) =>
        World(ui.(isError := true, message := OrElse(reason, ConfirmFailedMessage), submitting := false), w.table)
      case Confirmed =>
        var answer := WaitlistAction.Subscribe(w.table, SubmittedEntry(ui.form), isEmail, db, now);
        if answer.result.success then
          World(ui.(step := Success, message := "", isError := false, submitting := false), answer.table)
        else
          World(ui.(isError := true, message := answer.result.message, submitting := false), answer.table)
  }

  /** The guard of `handleResendOTP`: no name or phone check, but the cooldown must have run out. */
  predicate CanResend(ui: Ui) {
    ui.resendTimer == 0 && !ui.submitting && ui.verifierReady && ui.phoneValid
  }

  /** `handleResendOTP`: request a fresh code without leaving the verification step. */
  function ResendOtp(ui: Ui, outcome: SendOutcome): (r: Ui)
    ensures ui.resendTimer > 0 ==> r == ui
    ensures !CanResend(ui) ==> r == ui
    ensures r.step == ui.step && r.form == ui.form && r.otp == ui.otp && r.phoneValid == ui.phoneValid
    ensures CanResend(ui) && outcome.Sent? ==>
              r.confirmation == Some(outcome.confirmation) && r.resendTimer == ResendCooldown && !r.isError
    ensures CanResend(ui) && outcome.SendFailed? ==>
              r.isError && !r.verifierReady && r.confirmation == ui.confirmation && r.resendTimer == 0
    ensures CanResend(ui) ==> !r.submitting
  {
    if !CanResend(ui) then ui
    else
      match outcome
      case Sent(c) =>
        ui.(confirmation := Some(c), resendTimer := ResendCooldown, message := ResentMessage, isError := false,
            submitting := false)
      case SendFailed(reason) =>
        ui.(isError := true, message := OrElse(reason, ResendFailedMessage), verifierReady := false,
            submitting := false)
  }

  /** One second of the resend countdown. */
  function Tick(ui: Ui): Ui {
    if ui.resendTimer > 0 then ui.(resendTimer := ui.resendTimer - 1) else ui
  }

  function Ticks(ui: Ui, n: nat): Ui
    decreases n
  {
    if n == 0 then ui else Ticks(Tick(ui), n - 1)
  }

  /** The countdown loses one per second, stops at zero, and touches nothing else. */
  lemma {:induction false} CountdownStopsAtZero(ui: Ui, n: nat)
    ensures Ticks(ui, n).resendTimer == if ui.resendTimer >= n then ui.resendTimer - n else 0
    ensures Ticks(ui, n) == ui.(resendTimer := Ticks(ui, n).resendTimer)
    decreases n
  {
    if n > 0 {
      CountdownStopsAtZero(Tick(ui), n - 1);
    }
  }

  /** After a successful send, resending is refused for 29 seconds and allowed again after 30. */
  lemma {:induction false} CooldownLastsThirtySeconds(ui: Ui, c: Confirmation, n: nat, outcome: SendOutcome)
    requires CanSend(ui)
    ensures var sent := SendOtp(ui, Sent(c));
            (n < ResendCooldown ==> ResendOtp(Ticks(sent, n), outcome) == Ticks(sent, n))
            && (n >= ResendCooldown ==> Ticks(sent, n).resendTimer == 0 && (CanResend(Ticks(sent, n)) <==> sent.verifierReady && sent.phoneValid))
  {
    var sent := SendOtp(ui, Sent(c));
    CountdownStopsAtZero(sent, n);
  }

  /** `handleCloseModal`: close the modal and clear the form and the status. */
  function Close(ui: Ui): (r: Ui)
    ensures !r.modalOpen && r.step == InitialInfo && r.form == EmptyForm && r.otp == ""
    ensures r.message == "" && !r.isError && r.confirmation == None && !r.phoneValid
    // the countdown and the captcha widget are not reset
    ensures r.resendTimer == ui.resendTimer && r.verifierReady == ui.verifierReady && r.submitting == ui.submitting
  {
    ui.(modalOpen := false, step := InitialInfo, form := EmptyForm, otp := "", message := "", isError := false,
        confirmation := None, phoneValid := false)
  }

  /** Closing leaves the section as it was first rendered, apart from the countdown and the captcha widget. */
  lemma CloseRestoresInitial(ui: Ui)
    requires !ui.submitting
    ensures Close(ui) == InitialUi.(resendTimer := ui.resendTimer, verifierReady := ui.verifierReady)
    ensures Close(Close(ui)) == Close(ui)
  {
  }

  /** The Back button: return to the first step, keeping what was typed and the confirmation. */
  function Back(ui: Ui): (r: Ui)
    ensures r.step == InitialInfo
    ensures r.(step := ui.step) == ui
  {
    ui.(step := InitialInfo)
  }

  /** `handlePhoneChange`: store the new value and its verdict. */
  function EditPhone(ui: Ui, value: string): (r: Ui)
    ensures r.form.phone == value && (r.phoneValid <==> IsIndianMobile(RemoveWhitespace(value)))
    ensures r.form.name == ui.form.name && r.form.email == ui.form.email
  {
    ui.(form := ui.form.(phone := value), phoneValid := ValidatePhone(value))
  }

  /** What the user and the environment can do. */
  datatype Event =
    | OpenModal
    | CloseModal
    | GoBack
    | VerifierCreated
    | EditName(name: string)
    | EditEmail(email: string)
    | PhoneChanged(value: string)
    | EditOtp(otp: string)
    | TimerTick
    | SubmitInfo(sent: SendOutcome)
    | SubmitCode(confirm: ConfirmOutcome, db: WaitlistAction.Db, now: int)
    | AskResend(sent: SendOutcome)

  /** Events the current rendering offers: the controls of a step exist only while it is shown. */
  predicate Offered(ui: Ui, e: Event) {
    match e
    case OpenModal => true
    case TimerTick => true
    case CloseModal => ui.modalOpen
    case VerifierCreated => ui.modalOpen && !ui.verifierReady
    case EditName(_) => ui.modalOpen && ui.step == InitialInfo
    case EditEmail(_) => ui.modalOpen && ui.step == InitialInfo
    case PhoneChanged(_) => ui.modalOpen && ui.step == InitialInfo
    case SubmitInfo(_) => ui.modalOpen && ui.step == InitialInfo
    case GoBack => ui.modalOpen && ui.step == VerifyPhone
    case EditOtp(_) => ui.modalOpen && ui.step == VerifyPhone
    case SubmitCode(_, _, _) => ui.modalOpen && ui.step == VerifyPhone
    case AskResend(_) => ui.modalOpen && ui.step == VerifyPhone
  }

  /** One event, when offered, handled by its handler; an event with no control on screen changes nothing. */
  function Dispatch(w: World, e: Event, isEmail: EmailRule): World {
    var ui := w.ui;
    if !Offered(ui, e) then w
    else
      match e
      case OpenModal => World(ui.(modalOpen := true), w.table)
      case CloseModal => World(Close(ui), w.table)
      case GoBack => World(Back(ui), w.table)
      case VerifierCreated => World(ui.(verifierReady := true), w.table)
      case EditName(n) => World(ui.(form := ui.form.(name := n)), w.table)
      case EditEmail(m) => World(ui.(form := ui.form.(email := m)), w.table)
      case PhoneChanged(v) => World(EditPhone(ui, v), w.table)
      case EditOtp(o) => World(ui.(otp := o), w.table)
      case TimerTick => World(Tick(ui), w.table)
      case SubmitInfo(s) => World(SendOtp(ui, s), w.table)
      case SubmitCode(c, db, now) => VerifyOtp(w, c, isEmail, db, now)
      case AskResend(s) => World(ResendOtp(ui, s), w.table)
  }

  /**
   * What holds between events: no handler is left running, the validity flag matches the phone, the verification step
   * always has a confirmation for a valid phone, and the success step means the
   * phone (without white space) is on the waitlist.
   */
  predicate Invariant(w: World) {
    && !w.ui.submitting
    && w.ui.resendTimer <= ResendCooldown
    && w.ui.phoneValid == ValidatePhone(w.ui.form.phone)
    && (w.ui.step == VerifyPhone ==> w.ui.confirmation != None && w.ui.phoneValid)
    && (w.ui.step == Success ==>
          w.ui.modalOpen && w.ui.phoneValid && WaitlistAction.HasPhone(w.table, RemoveWhitespace(w.ui.form.phone)))
  }

  /** Every offered event keeps the invariant. */
  lemma DispatchKeepsInvariant(w: World, e: Event, isEmail: EmailRule)
    requires Invariant(w)
    ensures Invariant(Dispatch(w, e, isEmail))
  {
    if Offered(w.ui, e) && e.SubmitCode? {
      var r := Dispatch(w, e, isEmail);
      if r.ui.step == Success && w.ui.step != Success {
        var entry := SubmittedEntry(w.ui.form);
        var a := WaitlistAction.Subscribe(w.table, entry, isEmail, e.db, e.now);
        assert a.table[|w.table|] == WaitlistAction.NewRow(entry, e.now);
      }
    }
  }

  /** The world after a sequence of events. */
  function Run(w: World, events: seq<Event>, isEmail: EmailRule): World
    decreases |events|
  {
    if events == [] then w else Run(Dispatch(w, events[0], isEmail), events[1..], isEmail)
  }

  /** Every world reached from one satisfying the invariant satisfies it too. */
  lemma {:induction false} RunKeepsInvariant(w: World, events: seq<Event>, isEmail: EmailRule)
    requires Invariant(w)
    ensures Invariant(Run(w, events, isEmail))
    decreases |events|
  {
    if events != [] {
      DispatchKeepsInvariant(w, events[0], isEmail);
      RunKeepsInvariant(Dispatch(w, events[0], isEmail), events[1..], isEmail);
    }
  }

  /** The event is not a code submission that met a database lookup error. */
  predicate LookupsAnswer(e: Event) {
    e.SubmitCode? ==> e.db != WaitlistAction.DbLookupError
  }

  /** Events whose lookups answer keep the phones in the table unique. */
  lemma {:induction false} RunKeepsUniquePhones(w: World, events: seq<Event>, isEmail: EmailRule)
    requires WaitlistAction.UniquePhones(w.table)
    requires forall k :: 0 <= k < |events| ==> LookupsAnswer(events[k])
    ensures WaitlistAction.UniquePhones(Run(w, events, isEmail).table)
    decreases |events|
  {
    if events != [] {
      assert LookupsAnswer(events[0]);
      var next := Dispatch(w, events[0], isEmail);
      assert WaitlistAction.UniquePhones(next.table);
      assert forall k :: 0 <= k < |events[1..]| ==> LookupsAnswer(events[1..][k]) by {
        forall k | 0 <= k < |events[1..]| ensures LookupsAnswer(events[1..][k]) {
          assert events[1..][k] == events[k + 1];
        }
      }
      RunKeepsUniquePhones(next, events[1..], isEmail);
    }
  }

  /**
   * Whatever the user and the services do, reaching the success screen means the
   * number shown there is a valid Indian mobile number and is on the waitlist;
   * and as long as the database lookups answer, the waitlist never holds one
   * phone twice.
   */
  lemma SuccessMeansListed(table: WaitlistAction.Table, events: seq<Event>, isEmail: EmailRule)
    ensures var w := Run(World(InitialUi, table), events, isEmail);
            w.ui.step == Success ==>
              IsIndianMobile(RemoveWhitespace(w.ui.form.phone))
              && WaitlistAction.HasPhone(w.table, RemoveWhitespace(w.ui.form.phone))
    ensures WaitlistAction.UniquePhones(table) && (forall k :: 0 <= k < |events| ==> LookupsAnswer(events[k])) ==>
              WaitlistAction.UniquePhones(Run(World(InitialUi, table), events, isEmail).table)
  {
    assert Invariant(World(InitialUi, table));
    RunKeepsInvariant(World(InitialUi, table), events, isEmail);
    if WaitlistAction.UniquePhones(table) && (forall k :: 0 <= k < |events| ==> LookupsAnswer(events[k])) {
      RunKeepsUniquePhones(World(InitialUi, table), events, isEmail);
    }
  }
}
