/**
 * One-time-password helpers: a code of decimal digits is generated, mailed,
 * and later compared with what the user types. Random choices are passed in
 * as digit indices; sending mail is a parameter that reports success.
 */
module Otp {
  import opened Common

  const Digits: string := "0123456789"

  /** The length `generate_otp` uses when none is given. */
  const DefaultLength: nat := 6

  /**
   * `generate_otp(length)`: one digit per position, the i-th chosen by
   * picks[i]. A length of zero or less gives the empty code, as `range` does.
   */
  function GenerateOtp(length: int, picks: seq<nat>): (otp: string)
    requires length <= |picks|
    requires forall i :: 0 <= i < |picks| ==> picks[i] < |Digits|
    ensures |otp| == if length < 0 then 0 else length
    ensures forall i :: 0 <= i < |otp| ==> otp[i] == Digits[picks[i]]
  {
    if length <= 0 then "" else GenerateOtp(length - 1, picks) + [Digits[picks[length - 1]]]
  }

  /** Every character of a code is a decimal digit. */
  lemma OtpIsDigits(length: int, picks: seq<nat>)
    requires length <= |picks|
    requires forall i :: 0 <= i < |picks| ==> picks[i] < |Digits|
    ensures forall i :: 0 <= i < |GenerateOtp(length, picks)| ==> '0' <= GenerateOtp(length, picks)[i] <= '9'
  {
    forall i | 0 <= i < |GenerateOtp(length, picks)|
      ensures '0' <= GenerateOtp(length, picks)[i] <= '9'
    {
      var k := picks[i];
      assert Digits[k] == ('0' as int + k) as char;
    }
  }

  /** The picks that spell a given string of digits. */
  function PicksFor(code: string): (picks: seq<nat>)
    requires forall i :: 0 <= i < |code| ==> '0' <= code[i] <= '9'
    ensures |picks| == |code|
    ensures forall i :: 0 <= i < |code| ==> picks[i] < |Digits| && Digits[picks[i]] == code[i]
  {
    seq(|code|, i requires 0 <= i < |code| => (code[i] as int - '0' as int) as nat)
  }

  /** Every string of digits can come out of `generate_otp`: no code is excluded. */
  lemma EveryCodeGenerated(code: string)
    requires forall i :: 0 <= i < |code| ==> '0' <= code[i] <= '9'
    ensures GenerateOtp(|code|, PicksFor(code)) == code
  {
  }

  datatype EmailConfig = EmailConfig(sender: string, alertReceiver: string)

  datatype Message = Message(sender: string, receiver: string, subject: string, body: string)

  /** The message `send_alert_email(subject, message)` builds: always to the configured alert receiver. */
  function AlertMessage(config: EmailConfig, subject: string, body: string): Message
  {
    Message(config.sender, config.alertReceiver, subject, body)
  }

  const OtpSubject: string := "Your OTP Code"
  const OtpBodyPrefix: string := "Your OTP code is: "

  /** The message `send_otp_email(receiver_email, otp)` sends, as written. */
  function OtpMessage(config: EmailConfig, receiverEmail: string, otp: string): Message
  {
    AlertMessage(config, OtpSubject, OtpBodyPrefix + otp)
  }

  /**
   * As written, the OTP goes to the configured alert receiver whoever is
   * registering: the receiver argument makes no difference.
   */
  lemma OtpMessageIgnoresReceiver(config: EmailConfig, r1: string, r2: string, otp: string)
    ensures OtpMessage(config, r1, otp) == OtpMessage(config, r2, otp)
    ensures OtpMessage(config, r1, otp).receiver == config.alertReceiver
  {
  }

  /** A user whose address is not the alert receiver never gets their code. */
  lemma OtpMissesUser()
    ensures OtpMessage(EmailConfig("ids@example.com", "admin@example.com"), "user@example.com", "123456").receiver
      != "user@example.com"
  {
    assert "admin@example.com"[0] != "user@example.com"[0];
  }

  /** The OTP message addressed to the user who is registering. */
  function OtpMessageTo(config: EmailConfig, receiverEmail: string, otp: string): Message
  {
    Message(config.sender, receiverEmail, OtpSubject, OtpBodyPrefix + otp)
  }

  /**
   * The corrected message reaches the given address, from the configured
   * sender, with the fixed subject, and its body ends with the code.
   */
  lemma OtpMessageToReachesUser(config: EmailConfig, receiverEmail: string, otp: string)
    ensures OtpMessageTo(config, receiverEmail, otp).receiver == receiverEmail
    ensures OtpMessageTo(config, receiverEmail, otp).sender == config.sender
    ensures OtpMessageTo(config, receiverEmail, otp).subject == "Your OTP Code"
    ensures var body := OtpMessageTo(config, receiverEmail, otp).body;
      body == "Your OTP code is: " + otp && body[|body| - |otp|..] == otp
    ensures OtpMessageTo(config, receiverEmail, otp).body == OtpMessage(config, receiverEmail, otp).body
  {
    var body := OtpBodyPrefix + otp;
    assert body[|body| - |otp|..] == otp;
  }

  /**
   * `send_alert_email(subject, message)`. Reading the configuration happens
   * before the `try`, so an exception there (a missing section or option, a
   * port that is not an integer) escapes; `config` is the outcome of those
   * reads. The SMTP session runs inside the `try`: `smtp` reports whether it
   * delivered the message, every failure in it being caught as False.
   */
  function SendAlertEmail(config: Outcome<EmailConfig>, subject: string, body: string, smtp: Message -> bool): (r: Outcome<bool>)
    ensures config.Raised? ==> r == Raised(config.error)
    ensures config.Returned? ==> r == Returned(smtp(Message(config.value.sender, config.value.alertReceiver, subject, body)))
  {
    match config
    case Raised(e) => Raised(e)
    case Returned(c) => Returned(smtp(AlertMessage(c, subject, body)))
  }

  /** `send_otp_email(receiver_email, otp)`, as written: the OTP message handed to `send_alert_email`. */
  function SendOtpEmail(receiverEmail: string, otp: string, config: Outcome<EmailConfig>, smtp: Message -> bool): (r: Outcome<bool>)
    ensures config.Raised? ==> r == Raised(config.error)
    ensures config.Returned? ==> r == Returned(smtp(OtpMessage(config.value, receiverEmail, otp)))
  {
    SendAlertEmail(config, OtpSubject, OtpBodyPrefix + otp, smtp)
  }

  /**
   * `register_user(email)`, as written: a code of the default length is
   * generated and handed to `send_otp_email`; it is returned when the send
   * reports success and None is returned otherwise. An exception from the
   * configuration reads propagates.
   */
  function RegisterUser(email: string, config: Outcome<EmailConfig>, picks: seq<nat>, smtp: Message -> bool): Outcome<Option<string>>
    requires DefaultLength <= |picks|
    requires forall i :: 0 <= i < |picks| ==> picks[i] < |Digits|
  {
    var otp := GenerateOtp(DefaultLength, picks);
    match SendOtpEmail(email, otp, config, smtp)
    case Raised(e) => Raised(e)
    case Returned(sent) => Returned(if sent then Some(otp) else None)
  }

  /** `verify_otp(input_otp, actual_otp)`: the typed code against the stored one, which may be None. */
  predicate VerifyOtp(input: string, actual: Option<string>)
  {
    actual == Some(input)
  }

  /**
   * Registration as written: a configuration error propagates unchanged;
   * otherwise the six-digit code is returned exactly when the message to the
   * configured alert receiver is delivered, and None otherwise; afterwards a
   * typed code is accepted exactly when that delivery succeeded and the code
   * is the one that was mailed.
   */
  lemma RegisterThenVerify(email: string, config: Outcome<EmailConfig>, picks: seq<nat>, smtp: Message -> bool, input: string)
    requires DefaultLength <= |picks|
    requires forall i :: 0 <= i < |picks| ==> picks[i] < |Digits|
    ensures var r := RegisterUser(email, config, picks, smtp);
      && (r.Raised? <==> config.Raised?)
      && (config.Raised? ==> r.error == config.error)
    ensures var r := RegisterUser(email, config, picks, smtp);
      var otp := GenerateOtp(DefaultLength, picks);
      config.Returned? ==>
        var sent := smtp(Message(config.value.sender, config.value.alertReceiver, "Your OTP Code", "Your OTP code is: " + otp));
        && |otp| == 6
        && (r.value.Some? <==> sent)
        && (r.value.Some? ==> r.value.value == otp)
        && (VerifyOtp(input, r.value) <==> sent && input == otp)
  {
  }

  /**
   * As written, registration does not depend on the address being
   * registered: two users get the same outcome from the same draws.
   */
  lemma RegisterIgnoresEmail(e1: string, e2: string, config: Outcome<EmailConfig>, picks: seq<nat>, smtp: Message -> bool)
    requires DefaultLength <= |picks|
    requires forall i :: 0 <= i < |picks| ==> picks[i] < |Digits|
    ensures RegisterUser(e1, config, picks, smtp) == RegisterUser(e2, config, picks, smtp)
  {
  }

  /** `register_user(email)` with the OTP addressed to the user who is registering. */
  function RegisterUserCorrected(email: string, config: Outcome<EmailConfig>, picks: seq<nat>, smtp: Message -> bool): Outcome<Option<string>>
    requires DefaultLength <= |picks|
    requires forall i :: 0 <= i < |picks| ==> picks[i] < |Digits|
  {
    var otp := GenerateOtp(DefaultLength, picks);
    match config
    case Raised(e) => Raised(e)
    case Returned(c) => Returned(if smtp(OtpMessageTo(c, email, otp)) then Some(otp) else None)
  }

  /**
   * Corrected registration: a configuration error propagates; otherwise the
   * code is returned exactly when the message to the registering address is
   * delivered, and only that code is then accepted.
   */
  lemma RegisterCorrectedThenVerify(email: string, config: Outcome<EmailConfig>, picks: seq<nat>, smtp: Message -> bool, input: string)
    requires DefaultLength <= |picks|
    requires forall i :: 0 <= i < |picks| ==> picks[i] < |Digits|
    ensures var r := RegisterUserCorrected(email, config, picks, smtp);
      && (r.Raised? <==> config.Raised?)
      && (config.Raised? ==> r.error == config.error)
    ensures var r := RegisterUserCorrected(email, config, picks, smtp);
      var otp := GenerateOtp(DefaultLength, picks);
      config.Returned? ==>
        var sent := smtp(Message(config.value.sender, email, "Your OTP Code", "Your OTP code is: " + otp));
        && (r.value.Some? <==> sent)
        && (r.value.Some? ==> r.value.value == otp)
        && (VerifyOtp(input, r.value) <==> sent && input == otp)
  {
  }

  /** When the mail could not be sent, no typed code is ever accepted. */
  lemma FailedRegistrationRejects(input: string)
    ensures !VerifyOtp(input, None)
  {
  }

  /** Verification accepts the stored code and nothing else. */
  lemma VerifyOtpExact(input: string, actual: string)
    ensures VerifyOtp(input, Some(actual)) <==> input == actual
  {
  }
}
