/** The per-sender login session of `POST /webhook`: `userStore` maps a
    sender to `{state, phone, otpRetries, token, userId}` and every inbound
    message of a sender who is not yet verified moves that record on. The
    calls to the OTP backend are inputs: whether issuing succeeded, and the
    answer of the verify call. */
module Session {
  import opened Wrappers
  import opened Text

  datatype SessionState = Initial | AwaitingPhone | AwaitingOtp | Verified

  /** A `userStore` entry. An unset `otpRetries` reads as 0 (`|| 0`). */
  datatype UserRecord = UserRecord(
    state: SessionState, phone: Option<string>, otpRetries: nat,
    token: Option<string>, userId: Option<string>)

  /** The answer of a verify call that returned a payload: `data.status`,
      `data.payload.token`, `data.payload.userId`. A failed call, or one
      without a payload, is no answer at all. */
  datatype VerifyPayload = VerifyPayload(status: bool, token: Option<string>, userId: Option<string>)

  /** The arguments `verifyOTP` sends: the OTP text and the stored phone. */
  datatype OtpCheck = OtpCheck(otp: string, phone: Option<string>)

  /** The texts sent back to the sender. */
  datatype Message =
    | AskPhone | InvalidNumber | OtpSent | OtpSendFailed | PhoneNotFound | OtpResent
    | InvalidOtp(attempt: nat) | TooManyAttempts | OtpVerified | MainMenu | ProcessingError

  /** What handling one message does to the sender's record: the new record,
      the replies, the phone an OTP was requested for, the verify request, and
      whether the message went past the session gate to the order workflow. */
  datatype Outcome = Outcome(
    record: UserRecord, messages: seq<Message>, otpRequest: Option<string>,
    verifyRequest: Option<OtpCheck>, passThrough: bool)

  /** Exactly ten ASCII digits, nothing else. */
  predicate IsPhoneNumber(t: string) {
    |t| == 10 && AllDigits(t)
  }

  /** The word resend, in any ASCII case. */
  predicate IsResend(t: string) {
    ToLower(t) == "resend"
  }

  /** The `{}` that `setUserState` creates for an unknown sender. */
  const Fresh := UserRecord(Initial, None, 0, None, None)

  /** `!phone`, for the phone stored in a record. */
  predicate NoPhone(phone: Option<string>) {
    phone.None? || phone.value == ""
  }

  /** One message through the session branch of the handler: `rec` is the
      sender's record (None when there is none), `text` the raw
      `message.text.body`, `issueOk` whether the OTP issue call succeeds and
      `verify` the answer of the verify call. */
  function Advance(rec: Option<UserRecord>, text: Option<string>, issueOk: bool, verify: Option<VerifyPayload>): (o: Outcome)
    // No record, or `initial`: ask for the phone, whatever the text.
    ensures (rec.None? || rec.value.state == Initial) ==>
      o.record.state == AwaitingPhone && o.messages == [AskPhone]
      && o.otpRequest.None? && o.verifyRequest.None? && !o.passThrough
    // Waiting for the phone: text that is not ten digits changes nothing.
    ensures rec.Some? && rec.value.state == AwaitingPhone
            && !(text.Some? && IsPhoneNumber(Trim(text.value))) ==>
      o.record == rec.value && o.messages == [InvalidNumber] && o.otpRequest.None?
    // Ten digits: store the phone first, advance only if the OTP went out.
    ensures rec.Some? && rec.value.state == AwaitingPhone
            && text.Some? && IsPhoneNumber(Trim(text.value)) ==>
      o.record == rec.value.(phone := Some(Trim(text.value)),
                             state := if issueOk then AwaitingOtp else AwaitingPhone)
      && o.otpRequest == Some(Trim(text.value))
      && o.messages == (if issueOk then [OtpSent] else [OtpSendFailed])
    // Waiting for the OTP, `resend`: back to the phone if none is stored,
    // otherwise re-issue and leave the record alone.
    ensures rec.Some? && rec.value.state == AwaitingOtp && text.Some? && IsResend(Trim(text.value)) ==>
      o.verifyRequest.None?
      && (NoPhone(rec.value.phone) ==> o.record == rec.value.(state := AwaitingPhone) && o.otpRequest.None?)
      && (!NoPhone(rec.value.phone) ==> o.record == rec.value && o.otpRequest == rec.value.phone)
    // Waiting for the OTP, any other text: it is verified against the stored phone.
    ensures rec.Some? && rec.value.state == AwaitingOtp && text.Some? && !IsResend(Trim(text.value)) ==>
      o.verifyRequest == Some(OtpCheck(Trim(text.value), rec.value.phone)) && o.otpRequest.None?
      && (verify.Some? ==> o.record.token == verify.value.token && o.record.userId == verify.value.userId)
      && (verify.None? ==> o.record.token == rec.value.token && o.record.userId == rec.value.userId)
      && o.record.phone == rec.value.phone
      && (if verify.Some? && verify.value.status
          then o.record.state == Verified && o.record.otpRetries == 0
          else o.record.state == AwaitingOtp && o.record.otpRetries == rec.value.otpRetries + 1
               && o.messages == [if o.record.otpRetries >= 3 then TooManyAttempts else InvalidOtp(o.record.otpRetries)])
    // Waiting for the OTP without any text: `toLowerCase` of undefined throws.
    ensures rec.Some? && rec.value.state == AwaitingOtp && text.None? ==>
      o.record == rec.value && o.messages == [ProcessingError]
    // Verified is absorbing and only verified senders pass the gate.
    ensures rec.Some? && rec.value.state == Verified ==> o.record == rec.value && o.messages == []
    ensures o.passThrough <==> rec.Some? && rec.value.state == Verified
    // Verified is entered only from awaiting_otp by a successful verification.
    ensures o.record.state == Verified ==>
      rec.Some? && (rec.value.state == Verified
                    || (rec.value.state == AwaitingOtp && verify.Some? && verify.value.status))
  {
    var messageText := if text.Some? then Some(Trim(text.value)) else None;
    if rec.None? || rec.value.state == Initial then
      Outcome((if rec.None? then Fresh else rec.value).(state := AwaitingPhone), [AskPhone], None, None, false)
    else
      var r := rec.value;
      if r.state == AwaitingPhone then
        if messageText.None? || !IsPhoneNumber(messageText.value) then
          Outcome(r, [InvalidNumber], None, None, false)
        else
          var withPhone := r.(phone := messageText);
          if issueOk then Outcome(withPhone.(state := AwaitingOtp), [OtpSent], messageText, None, false)
          else Outcome(withPhone, [OtpSendFailed], messageText, None, false)
      else if r.state == AwaitingOtp then
        if messageText.None? then
          Outcome(r, [ProcessingError], None, None, false)
        else if IsResend(messageText.value) then
          if NoPhone(r.phone) then Outcome(r.(state := AwaitingPhone), [PhoneNotFound], None, None, false)
          else Outcome(r, if issueOk then [OtpResent] else [OtpSendFailed, ProcessingError], r.phone, None, false)
        else
          var check := Some(OtpCheck(messageText.value, r.phone));
          var answered := if verify.Some? then r.(token := verify.value.token, userId := verify.value.userId) else r;
          if verify.Some? && verify.value.status then
            Outcome(answered.(state := Verified, otpRetries := 0), [OtpVerified, MainMenu], None, check, false)
          else
            var retries := answered.otpRetries + 1;
            Outcome(answered.(otpRetries := retries),
                    [if retries >= 3 then TooManyAttempts else InvalidOtp(retries)], None, check, false)
      else
        assert r.state == Verified;
        Outcome(r, [], None, None, true)
  }

  /** The records the handler can produce: `initial` is never stored, a stored
      phone is ten digits, awaiting an OTP or verified implies a stored phone,
      and a verified sender has no retries left over. */
  predicate ValidRecord(r: UserRecord) {
    && r.state != Initial
    && (r.phone.Some? ==> IsPhoneNumber(r.phone.value))
    && ((r.state == AwaitingOtp || r.state == Verified) ==> r.phone.Some?)
    && (r.state == Verified ==> r.otpRetries == 0)
  }

  /** A phone number has no surrounding whitespace, so trimming the text keeps
      it whole, and once stored it is never read as missing. */
  lemma PhoneNumberIsTrimmed(t: string)
    requires IsPhoneNumber(t)
    ensures Trim(t) == t
    ensures !NoPhone(Some(t))
  {
    assert IsDigit(t[0]) && IsDigit(t[9]);
    TrimPadded([], t, []);
    assert [] + t + [] == t;
  }

  /** `resend` matches in any case, and only six-letter text can match. */
  lemma ResendAnyCase(t: string)
    ensures IsResend(t) ==> |t| == 6
    ensures IsResend("RESEND") && IsResend("Resend")
  {
    var u := ToLower("RESEND");
    assert u[0] == 'r' && u[1] == 'e' && u[2] == 's' && u[3] == 'e' && u[4] == 'n' && u[5] == 'd';
    var v := ToLower("Resend");
    assert v[0] == 'r' && v[1] == 'e' && v[2] == 's' && v[3] == 'e' && v[4] == 'n' && v[5] == 'd';
  }

  /** In a well-formed record that awaits the OTP the phone is never missing,
      so `resend` always re-issues the code. */
  lemma StoredPhonePresent(r: UserRecord)
    requires ValidRecord(r) && r.state == AwaitingOtp
    ensures !NoPhone(r.phone)
  {
  }

  /** Every step keeps the record well formed; in particular the "phone number
      not found" reply of `resend` can never be sent. */
  lemma AdvanceKeepsValid(rec: Option<UserRecord>, text: Option<string>, issueOk: bool, verify: Option<VerifyPayload>)
    requires rec.Some? ==> ValidRecord(rec.value)
    ensures ValidRecord(Advance(rec, text, issueOk, verify).record)
    ensures PhoneNotFound !in Advance(rec, text, issueOk, verify).messages
  {
  }

  /** One inbound message with the OTP backend's answers for it. */
  datatype Event = Event(text: Option<string>, issueOk: bool, verify: Option<VerifyPayload>)

  /** The sender's record after a sequence of messages, handled one at a time. */
  function Run(rec: Option<UserRecord>, events: seq<Event>): Option<UserRecord>
    decreases events
  {
    if events == [] then rec
    else Run(Some(Advance(rec, events[0].text, events[0].issueOk, events[0].verify).record), events[1..])
  }

  lemma {:induction false} RunKeepsValid(rec: Option<UserRecord>, events: seq<Event>)
    requires rec.Some? ==> ValidRecord(rec.value)
    ensures Run(rec, events).Some? ==> ValidRecord(Run(rec, events).value)
    decreases events
  {
    if events != [] {
      AdvanceKeepsValid(rec, events[0].text, events[0].issueOk, events[0].verify);
      RunKeepsValid(Some(Advance(rec, events[0].text, events[0].issueOk, events[0].verify).record), events[1..]);
    }
  }

  /** No sequence of messages changes the record of a verified sender. */
  lemma {:induction false} VerifiedAbsorbing(r: UserRecord, events: seq<Event>)
    requires r.state == Verified
    ensures Run(Some(r), events) == Some(r)
    decreases events
  {
    if events != [] {
      VerifiedAbsorbing(r, events[1..]);
    }
  }

  lemma RunPrefixStep(rec: Option<UserRecord>, events: seq<Event>, i: nat)
    requires i < |events|
    ensures Run(rec, events[..i + 1])
         == Run(Some(Advance(rec, events[0].text, events[0].issueOk, events[0].verify).record), events[1..][..i])
  {
    assert events[..i + 1][1..] == events[1..][..i];
  }

  /** A sender who ends up verified without starting verified went through a
      message handled in `awaiting_otp` whose verification succeeded. */
  lemma {:induction false} VerifiedOnlyThroughOtp(rec: Option<UserRecord>, events: seq<Event>)
    requires rec.None? || rec.value.state != Verified
    requires Run(rec, events).Some? && Run(rec, events).value.state == Verified
    ensures exists i :: (0 <= i < |events| && Run(rec, events[..i]).Some?
                         && Run(rec, events[..i]).value.state == AwaitingOtp
                         && events[i].verify.Some? && events[i].verify.value.status)
    decreases events
  {
    assert events != [];
    var next := Advance(rec, events[0].text, events[0].issueOk, events[0].verify).record;
    if next.state == Verified {
      assert events[..0] == [];
    } else {
      VerifiedOnlyThroughOtp(Some(next), events[1..]);
      var j :| 0 <= j < |events[1..]| && Run(Some(next), events[1..][..j]).Some?
        && Run(Some(next), events[1..][..j]).value.state == AwaitingOtp
        && events[1..][j].verify.Some? && events[1..][j].verify.value.status;
      RunPrefixStep(rec, events, j);
      assert events[j + 1] == events[1..][j];
    }
  }

  /** The session's part of the webhook: the `userStore` dictionary and the
      three writers the handler uses on it. */
  class UserStore {
    var users: map<string, UserRecord>

    ghost predicate Valid()
      reads this
    {
      forall s :: s in users ==> ValidRecord(users[s])
    }

    constructor ()
      ensures Valid() && users == map[]
    {
      users := map[];
    }

    function Lookup(sender: string): (r: Option<UserRecord>)
      reads this
      ensures r.Some? <==> sender in users
      ensures r.Some? ==> r.value == users[sender]
    {
      if sender in users then Some(users[sender]) else None
    }

    /** `getUserState`: the stored state, `initial` for an unknown sender. */
    function GetUserState(sender: string): (state: SessionState)
      reads this
      ensures sender !in users ==> state == Initial
      ensures sender in users ==> state == users[sender].state
    {
      if sender in users then users[sender].state else Initial
    }

    /** `setUserState`: creates the record if needed, then sets its state. */
    method SetUserState(sender: string, state: SessionState)
      modifies this
      ensures users == old(users)[sender := (if sender in old(users) then old(users)[sender] else Fresh).(state := state)]
    {
      var r := if sender in users then users[sender] else Fresh;
      users := users[sender := r.(state := state)];
    }

    /** `setUserPhone`: the record must exist. */
    method SetUserPhone(sender: string, phone: string)
      requires sender in users
      modifies this
      ensures users == old(users)[sender := old(users)[sender].(phone := Some(phone))]
    {
      users := users[sender := users[sender].(phone := Some(phone))];
    }

    /** The store writes of `verifyOTP`: a call that answered with a payload
        stores its token and user id, whatever its status; the result is the
        truthiness of that status, false when the call failed. */
    method VerifyOtp(sender: string, verify: Option<VerifyPayload>) returns (isValidOtp: bool)
      requires sender in users
      modifies this
      ensures isValidOtp == (verify.Some? && verify.value.status)
      ensures verify.None? ==> users == old(users)
      ensures verify.Some? ==>
        users == old(users)[sender := old(users)[sender].(token := verify.value.token, userId := verify.value.userId)]
    {
      match verify
      case None =>
        isValidOtp := false;
      case Some(answer) =>
        users := users[sender := users[sender].(token := answer.token, userId := answer.userId)];
        isValidOtp := answer.status;
    }

    /** The `awaiting_phone` branch: validate the number, store it, request
        an OTP and advance only if that succeeded. */
    method OnAwaitingPhone(sender: string, text: Option<string>, issueOk: bool, verify: Option<VerifyPayload>)
      returns (messages: seq<Message>, otpRequest: Option<string>)
      requires sender in users && users[sender].state == AwaitingPhone
      modifies this
      ensures var o := Advance(old(Lookup(sender)), text, issueOk, verify);
        && users == old(users)[sender := o.record]
        && messages == o.messages && otpRequest == o.otpRequest
    {
      var messageText := if text.Some? then Some(Trim(text.value)) else None;
      otpRequest := None;
      if messageText.None? || !IsPhoneNumber(messageText.value) {
        messages := [InvalidNumber];
        assert users == users[sender := users[sender]];
        return;
      }
      SetUserPhone(sender, messageText.value);
      otpRequest := messageText;
      if issueOk {
        SetUserState(sender, AwaitingOtp);
        messages := [OtpSent];
      } else {
        messages := [OtpSendFailed];
      }
    }

    /** The `awaiting_otp` branch: `resend`, or verify the text as the OTP and
        count a failure. */
    method OnAwaitingOtp(sender: string, text: Option<string>, issueOk: bool, verify: Option<VerifyPayload>)
      returns (messages: seq<Message>, otpRequest: Option<string>, verifyRequest: Option<OtpCheck>)
      requires sender in users && users[sender].state == AwaitingOtp
      modifies this
      ensures var o := Advance(old(Lookup(sender)), text, issueOk, verify);
        && users == old(users)[sender := o.record]
        && messages == o.messages && otpRequest == o.otpRequest && verifyRequest == o.verifyRequest
    {
      var messageText := if text.Some? then Some(Trim(text.value)) else None;
      otpRequest, verifyRequest := None, None;
      if messageText.None? {
        messages := [ProcessingError];
        assert users == users[sender := users[sender]];
        return;
      }
      if IsResend(messageText.value) {
        var phone := users[sender].phone;
        if NoPhone(phone) {
          messages := [PhoneNotFound];
          SetUserState(sender, AwaitingPhone);
          return;
        }
        otpRequest := phone;
        messages := if issueOk then [OtpResent] else [OtpSendFailed, ProcessingError];
        assert users == users[sender := users[sender]];
        return;
      }
      verifyRequest := Some(OtpCheck(messageText.value, users[sender].phone));
      var isValidOtp := VerifyOtp(sender, verify);
      if !isValidOtp {
        var retries := users[sender].otpRetries + 1;
        users := users[sender := users[sender].(otpRetries := retries)];
        messages := [if retries >= 3 then TooManyAttempts else InvalidOtp(retries)];
        return;
      }
      SetUserState(sender, Verified);
      users := users[sender := users[sender].(otpRetries := 0)];
      messages := [OtpVerified, MainMenu];
    }

    /** The OTP branch of `POST /webhook` for one message of `sender`. */
    method Step(sender: string, text: Option<string>, issueOk: bool, verify: Option<VerifyPayload>)
      returns (messages: seq<Message>, otpRequest: Option<string>, verifyRequest: Option<OtpCheck>, passThrough: bool)
      modifies this
      ensures old(Valid()) ==> Valid()
      ensures var o := Advance(old(Lookup(sender)), text, issueOk, verify);
        && users == old(users)[sender := o.record]
        && messages == o.messages && otpRequest == o.otpRequest
        && verifyRequest == o.verifyRequest && passThrough == o.passThrough
    {
      ghost var before := Lookup(sender);
      if sender in users ==> ValidRecord(users[sender]) {
        AdvanceKeepsValid(before, text, issueOk, verify);
      }
      otpRequest, verifyRequest, passThrough := None, None, false;
      var userState := GetUserState(sender);
      if userState == Initial {
        SetUserState(sender, AwaitingPhone);
        messages := [AskPhone];
      } else if userState == AwaitingPhone {
        messages, otpRequest := OnAwaitingPhone(sender, text, issueOk, verify);
      } else if userState == AwaitingOtp {
        messages, otpRequest, verifyRequest := OnAwaitingOtp(sender, text, issueOk, verify);
      } else {
        messages := [];
        passThrough := true;
        assert users == users[sender := users[sender]];
      }
    }
  }
}
