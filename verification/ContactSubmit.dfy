/** The contact form's two send buttons, as the sequence of observable
    effects each click produces.

    The submit button validates the form, puts the button into its loading
    state, drops the request if the hidden `botcheck` field is filled in,
    posts the request to the Web3Forms service and, when that fails in any
    way, forwards the request through WhatsApp instead; the button is
    restored at the end. The Gmail button validates the form and opens a
    Gmail compose window with the request written out.

    The service's answer is a parameter: it either throws (network error,
    a body that is not JSON) or replies with a `success` flag. */
module ContactSubmit {
  import opened Text
  import opened FormValidation
  import opened Messages

  const TargetEmail := "legaldeskhelp.mail@gmail.com"
  const SubjectPrefix := "New Consultation Request - "
  const NoEmail := "Not provided"
  const NoMessage := "No description provided"

  /** The fields posted to the e-mail service, besides the access key. */
  datatype Payload = Payload(
    subject: string, fromName: string, email: string, phone: string,
    legalMatter: string, message: string, to: string)

  /** What the e-mail service did with the request. */
  datatype Reply = Threw | Replied(success: bool)

  datatype ToastKind = Success | Warning | Info

  /** One observable thing a click does. */
  datatype Effect =
    | ShowErrors(fields: set<Field>)
    | DisableButton
    | RestoreButton
    | Send(payload: Payload)
    | Toast(kind: ToastKind)
    | ResetForm
    | OpenWhatsApp(message: string)
    | OpenGmail(subject: string, body: string)

  // ---------------------------------------------------------------------------
  // The payload

  /** The mail subject line both buttons use. */
  function MailSubject(d: ContactForm): (s: string)
    ensures |s| >= |SubjectPrefix| && s[..|SubjectPrefix|] == SubjectPrefix
    ensures s[|SubjectPrefix|..] == SubjectLabel(d.subject)
  {
    SubjectPrefix + SubjectLabel(d.subject)
  }

  /** The request as posted to the e-mail service: an empty e-mail address
      or description is replaced by a placeholder. */
  function EmailPayload(d: ContactForm): (p: Payload)
    ensures p.to == TargetEmail
    ensures p.legalMatter == SubjectLabel(d.subject)
    ensures p.subject == SubjectPrefix + p.legalMatter
    ensures p.fromName == d.name && p.phone == d.phone
    ensures p.email != "" && p.message != ""
    ensures d.email != "" ==> p.email == d.email
    ensures d.message != "" ==> p.message == d.message
  {
    Payload(
      MailSubject(d),
      d.name,
      if d.email != "" then d.email else NoEmail,
      d.phone,
      SubjectLabel(d.subject),
      if d.message != "" then d.message else NoMessage,
      TargetEmail)
  }

  /** What a reader of the e-mail can recover of the form. */
  function ReadPayload(p: Payload): (d: ContactForm)
  {
    ContactForm(
      p.fromName,
      if p.email == NoEmail then "" else p.email,
      p.phone,
      p.legalMatter,
      if p.message == NoMessage then "" else p.message,
      "")
  }

  /** The e-mail loses nothing the sender typed in the free-text fields,
      unless the sender typed the placeholder text itself. */
  lemma PayloadRoundTrip(d: ContactForm)
    requires d.email != NoEmail && d.message != NoMessage
    ensures var r := ReadPayload(EmailPayload(d));
            r.name == d.name && r.email == d.email && r.phone == d.phone && r.message == d.message
  {
  }

  /** Typing the placeholder is indistinguishable from leaving the field
      empty. */
  lemma PlaceholderIsAmbiguous(d: ContactForm)
    requires d.email == NoEmail
    ensures EmailPayload(d) == EmailPayload(d.(email := ""))
  {
  }

  // ---------------------------------------------------------------------------
  // The submit button

  /** What the request's outcome adds after the post: a success toast and
      a reset, or the WhatsApp fallback `fallback` and a warning toast. */
  function Outcome(fallback: string, reply: Reply): (t: seq<Effect>)
    ensures |t| == 2
  {
    if reply == Replied(true) then [Toast(Success), ResetForm]
    else [OpenWhatsApp(fallback), Toast(Warning)]
  }

  /** The submit handler as written, given the fields `validateForm` marks,
      whether `botcheck` is filled in, the payload and the WhatsApp
      message: the button is disabled before the `botcheck` test, and the
      early return for a filled-in `botcheck` skips the `finally` that
      would restore it. */
  function SubmitFlowAsWritten(errs: set<Field>, spam: bool, payload: Payload, fallback: string,
                               reply: Reply): (t: seq<Effect>)
  {
    if errs != {} then [ShowErrors(errs)]
    else if spam then [DisableButton]
    else [DisableButton, Send(payload)] + Outcome(fallback, reply) + [RestoreButton]
  }

  /** The submit handler with the `botcheck` test moved before the button
      is disabled, so that every path that disables it also restores it. */
  function SubmitFlow(errs: set<Field>, spam: bool, payload: Payload, fallback: string,
                      reply: Reply): (t: seq<Effect>)
  {
    if errs != {} then [ShowErrors(errs)]
    else if spam then []
    else [DisableButton, Send(payload)] + Outcome(fallback, reply) + [RestoreButton]
  }

  function SubmitAsWritten(d: ContactForm, reply: Reply): (t: seq<Effect>)
  {
    SubmitFlowAsWritten(FormErrors(d), d.botcheck != "", EmailPayload(d), WhatsAppMessage(d), reply)
  }

  function Submit(d: ContactForm, reply: Reply): (t: seq<Effect>)
  {
    SubmitFlow(FormErrors(d), d.botcheck != "", EmailPayload(d), WhatsAppMessage(d), reply)
  }

  /** Whether the button is disabled after the effects `t`, starting from
      `disabled`. */
  function ButtonDisabledAfter(disabled: bool, t: seq<Effect>): bool
    decreases |t|
  {
    if t == [] then disabled
    else ButtonDisabledAfter(
      if t[0] == DisableButton then true else if t[0] == RestoreButton then false else disabled,
      t[1..])
  }

  /** The number of WhatsApp windows the effects `t` open. */
  function WhatsAppOpens(t: seq<Effect>): (n: nat)
    ensures n <= |t|
    ensures n == 0 <==> forall k :: 0 <= k < |t| ==> !t[k].OpenWhatsApp?
  {
    if t == [] then 0
    else (if t[0].OpenWhatsApp? then 1 else 0) + WhatsAppOpens(t[1..])
  }

  /** The number of requests the effects `t` post. */
  function Sends(t: seq<Effect>): (n: nat)
    ensures n <= |t|
    ensures n == 0 <==> forall k :: 0 <= k < |t| ==> !t[k].Send?
  {
    if t == [] then 0
    else (if t[0].Send? then 1 else 0) + Sends(t[1..])
  }

  lemma {:induction false} WhatsAppOpensAppend(a: seq<Effect>, b: seq<Effect>)
    ensures WhatsAppOpens(a + b) == WhatsAppOpens(a) + WhatsAppOpens(b)
    decreases |a|
  {
    if a == [] {
      assert a + b == b;
    } else {
      assert (a + b)[1..] == a[1..] + b;
      WhatsAppOpensAppend(a[1..], b);
    }
  }

  lemma {:induction false} SendsAppend(a: seq<Effect>, b: seq<Effect>)
    ensures Sends(a + b) == Sends(a) + Sends(b)
    decreases |a|
  {
    if a == [] {
      assert a + b == b;
    } else {
      assert (a + b)[1..] == a[1..] + b;
      SendsAppend(a[1..], b);
    }
  }

  /** Whatever comes before, effects that end by restoring the button leave
      it enabled. */
  lemma {:induction false} RestoredLast(disabled: bool, t: seq<Effect>)
    requires |t| > 0 && t[|t| - 1] == RestoreButton
    ensures !ButtonDisabledAfter(disabled, t)
    decreases |t|
  {
    if |t| > 1 {
      RestoredLast(if t[0] == DisableButton then true else if t[0] == RestoreButton then false else disabled, t[1..]);
    }
  }

  /** Effects that neither disable nor restore the button leave it as it was. */
  lemma {:induction false} ButtonUntouched(disabled: bool, t: seq<Effect>)
    requires forall k :: 0 <= k < |t| ==> t[k] != DisableButton && t[k] != RestoreButton
    ensures ButtonDisabledAfter(disabled, t) == disabled
    decreases |t|
  {
    if t != [] {
      ButtonUntouched(disabled, t[1..]);
    }
  }

  /** The effects of a post: the loading state, the request, the outcome and
      the restored button. */
  lemma PostEffects(payload: Payload, fallback: string, reply: Reply)
    ensures var t := SubmitFlow({}, false, payload, fallback, reply);
            && t == [DisableButton, Send(payload)] + Outcome(fallback, reply) + [RestoreButton]
            && Sends(t) == 1
            && WhatsAppOpens(t) == (if reply == Replied(true) then 0 else 1)
  {
    var o := Outcome(fallback, reply);
    SendsAppend([DisableButton, Send(payload)], o);
    SendsAppend([DisableButton, Send(payload)] + o, [RestoreButton]);
    WhatsAppOpensAppend([DisableButton, Send(payload)], o);
    WhatsAppOpensAppend([DisableButton, Send(payload)] + o, [RestoreButton]);
    assert [DisableButton, Send(payload)][1..] == [Send(payload)];
    assert o[1..][1..] == [];
  }

  /** The submit handler leaves the button enabled on every path. */
  lemma SubmitRestoresButton(d: ContactForm, reply: Reply)
    ensures !ButtonDisabledAfter(false, Submit(d, reply))
  {
    FlowRestoresButton(FormErrors(d), d.botcheck != "", EmailPayload(d), WhatsAppMessage(d), reply);
  }

  lemma FlowRestoresButton(errs: set<Field>, spam: bool, payload: Payload, fallback: string, reply: Reply)
    ensures !ButtonDisabledAfter(false, SubmitFlow(errs, spam, payload, fallback, reply))
  {
    var t := SubmitFlow(errs, spam, payload, fallback, reply);
    if errs == {} && !spam {
      PostEffects(payload, fallback, reply);
      RestoredLast(false, t);
    }
  }

  /** As written, a valid form with `botcheck` filled in leaves the button
      disabled. */
  lemma BotcheckLeavesButtonDisabled(d: ContactForm, reply: Reply)
    requires ValidateForm(d) && d.botcheck != ""
    ensures ButtonDisabledAfter(false, SubmitAsWritten(d, reply))
  {
    FlowAsWrittenSpam(FormErrors(d), EmailPayload(d), WhatsAppMessage(d), reply);
  }

  lemma FlowAsWrittenSpam(errs: set<Field>, payload: Payload, fallback: string, reply: Reply)
    requires errs == {}
    ensures ButtonDisabledAfter(false, SubmitFlowAsWritten(errs, true, payload, fallback, reply))
  {
    assert SubmitFlowAsWritten(errs, true, payload, fallback, reply) == [DisableButton];
  }

  /** A concrete such form. */
  lemma BotcheckExample()
    ensures ValidateForm(SampleForm("other", "on"))
    ensures ButtonDisabledAfter(false, SubmitAsWritten(SampleForm("other", "on"), Threw))
  {
    BotcheckLeavesButtonDisabled(SampleForm("other", "on"), Threw);
  }

  /** The two handlers differ only on the `botcheck` path. */
  lemma SubmitMatchesAsWritten(d: ContactForm, reply: Reply)
    requires !ValidateForm(d) || d.botcheck == ""
    ensures Submit(d, reply) == SubmitAsWritten(d, reply)
  {
  }

  /** The handler as written and the corrected one part only on the
      `botcheck` path, where the program only disables the button. */
  lemma FlowsDifferOnSpam(errs: set<Field>, spam: bool, payload: Payload, fallback: string, reply: Reply)
    ensures SubmitFlowAsWritten(errs, spam, payload, fallback, reply) ==
              if errs == {} && spam then [DisableButton] else SubmitFlow(errs, spam, payload, fallback, reply)
    ensures Sends([DisableButton]) == 0 && WhatsAppOpens([DisableButton]) == 0
  {
  }

  /** One request is posted exactly when the form is valid and `botcheck`
      is empty, and it carries the form's payload; this holds of the
      handler as written as well as of the corrected one. */
  lemma SubmitSendsOnce(d: ContactForm, reply: Reply)
    ensures Sends(Submit(d, reply)) == (if ValidateForm(d) && d.botcheck == "" then 1 else 0)
    ensures forall k :: 0 <= k < |Submit(d, reply)| && Submit(d, reply)[k].Send? ==>
              Submit(d, reply)[k].payload == EmailPayload(d)
    ensures Sends(SubmitAsWritten(d, reply)) == (if ValidateForm(d) && d.botcheck == "" then 1 else 0)
    ensures forall k :: 0 <= k < |SubmitAsWritten(d, reply)| && SubmitAsWritten(d, reply)[k].Send? ==>
              SubmitAsWritten(d, reply)[k].payload == EmailPayload(d)
  {
    FlowSendsOnce(FormErrors(d), d.botcheck != "", EmailPayload(d), WhatsAppMessage(d), reply);
  }

  lemma FlowSendsOnce(errs: set<Field>, spam: bool, payload: Payload, fallback: string, reply: Reply)
    ensures var t := SubmitFlow(errs, spam, payload, fallback, reply);
            && Sends(t) == (if errs == {} && !spam then 1 else 0)
            && forall k :: 0 <= k < |t| && t[k].Send? ==> t[k].payload == payload
    ensures var t := SubmitFlowAsWritten(errs, spam, payload, fallback, reply);
            && Sends(t) == (if errs == {} && !spam then 1 else 0)
            && forall k :: 0 <= k < |t| && t[k].Send? ==> t[k].payload == payload
  {
    FlowsDifferOnSpam(errs, spam, payload, fallback, reply);
    if errs == {} && !spam {
      PostEffects(payload, fallback, reply);
    }
  }

  /** The request is forwarded through WhatsApp exactly once when the post
      throws or the service reports failure, and never otherwise, in both
      handlers; the message is the WhatsApp rendering of the form. */
  lemma FallbackOnFailure(d: ContactForm, reply: Reply)
    ensures WhatsAppOpens(Submit(d, reply)) ==
              (if ValidateForm(d) && d.botcheck == "" && reply != Replied(true) then 1 else 0)
    ensures forall k :: 0 <= k < |Submit(d, reply)| && Submit(d, reply)[k].OpenWhatsApp? ==>
              Submit(d, reply)[k].message == WhatsAppMessage(d)
    ensures WhatsAppOpens(SubmitAsWritten(d, reply)) ==
              (if ValidateForm(d) && d.botcheck == "" && reply != Replied(true) then 1 else 0)
    ensures forall k :: 0 <= k < |SubmitAsWritten(d, reply)| && SubmitAsWritten(d, reply)[k].OpenWhatsApp? ==>
              SubmitAsWritten(d, reply)[k].message == WhatsAppMessage(d)
  {
    FlowFallback(FormErrors(d), d.botcheck != "", EmailPayload(d), WhatsAppMessage(d), reply);
  }

  lemma FlowFallback(errs: set<Field>, spam: bool, payload: Payload, fallback: string, reply: Reply)
    ensures var t := SubmitFlow(errs, spam, payload, fallback, reply);
            && WhatsAppOpens(t) == (if errs == {} && !spam && reply != Replied(true) then 1 else 0)
            && forall k :: 0 <= k < |t| && t[k].OpenWhatsApp? ==> t[k].message == fallback
    ensures var t := SubmitFlowAsWritten(errs, spam, payload, fallback, reply);
            && WhatsAppOpens(t) == (if errs == {} && !spam && reply != Replied(true) then 1 else 0)
            && forall k :: 0 <= k < |t| && t[k].OpenWhatsApp? ==> t[k].message == fallback
  {
    FlowsDifferOnSpam(errs, spam, payload, fallback, reply);
    if errs == {} && !spam {
      PostEffects(payload, fallback, reply);
    }
  }

  /** The form is reset, with a success toast, exactly when the service
      reports success; the warning toast goes with the WhatsApp fallback.
      Both handlers agree on this. */
  lemma ResetOnlyOnSuccess(d: ContactForm, reply: Reply)
    ensures ResetForm in Submit(d, reply) <==> ValidateForm(d) && d.botcheck == "" && reply == Replied(true)
    ensures Toast(Success) in Submit(d, reply) <==> ResetForm in Submit(d, reply)
    ensures Toast(Warning) in Submit(d, reply) <==> WhatsAppOpens(Submit(d, reply)) == 1
    ensures ResetForm in SubmitAsWritten(d, reply) <==> ValidateForm(d) && d.botcheck == "" && reply == Replied(true)
    ensures Toast(Success) in SubmitAsWritten(d, reply) <==> ResetForm in SubmitAsWritten(d, reply)
    ensures Toast(Warning) in SubmitAsWritten(d, reply) <==> WhatsAppOpens(SubmitAsWritten(d, reply)) == 1
  {
    FlowResets(FormErrors(d), d.botcheck != "", EmailPayload(d), WhatsAppMessage(d), reply);
  }

  lemma FlowResets(errs: set<Field>, spam: bool, payload: Payload, fallback: string, reply: Reply)
    ensures var t := SubmitFlow(errs, spam, payload, fallback, reply);
            && (ResetForm in t <==> errs == {} && !spam && reply == Replied(true))
            && (Toast(Success) in t <==> ResetForm in t)
            && (Toast(Warning) in t <==> WhatsAppOpens(t) == 1)
    ensures var t := SubmitFlowAsWritten(errs, spam, payload, fallback, reply);
            && (ResetForm in t <==> errs == {} && !spam && reply == Replied(true))
            && (Toast(Success) in t <==> ResetForm in t)
            && (Toast(Warning) in t <==> WhatsAppOpens(t) == 1)
  {
    FlowsDifferOnSpam(errs, spam, payload, fallback, reply);
    FlowFallback(errs, spam, payload, fallback, reply);
    var t := SubmitFlow(errs, spam, payload, fallback, reply);
    if errs == {} && !spam {
      PostEffects(payload, fallback, reply);
    }
  }

  /** An invalid form only gets its error marks, one per failing field. */
  lemma InvalidFormOnlyMarks(d: ContactForm, reply: Reply)
    requires !ValidateForm(d)
    ensures Submit(d, reply) == [ShowErrors(FormErrors(d))] && FormErrors(d) != {}
  {
  }

  // ---------------------------------------------------------------------------
  // The Gmail button

  /** The Gmail button's click handler, given the fields `validateForm`
      marks, the compose subject and the body; it does not look at
      `botcheck`. */
  function GmailFlow(errs: set<Field>, subject: string, body: string): (t: seq<Effect>)
  {
    if errs != {} then [ShowErrors(errs)]
    else [OpenGmail(subject, body), Toast(Info), ResetForm]
  }

  function GmailClick(d: ContactForm): (t: seq<Effect>)
  {
    GmailFlow(FormErrors(d), MailSubject(d), GmailBody(d))
  }

  /** The Gmail button opens one compose window, with the same subject the
      e-mail service would get, exactly when the form is valid, and never
      touches the submit button or posts anything. */
  lemma GmailOpensOnce(d: ContactForm)
    ensures ValidateForm(d) ==> GmailClick(d)[0] == OpenGmail(EmailPayload(d).subject, GmailBody(d))
    ensures (exists k :: 0 <= k < |GmailClick(d)| && GmailClick(d)[k].OpenGmail?) <==> ValidateForm(d)
    ensures Sends(GmailClick(d)) == 0 && WhatsAppOpens(GmailClick(d)) == 0
    ensures !ButtonDisabledAfter(false, GmailClick(d))
  {
    GmailFlowOpensOnce(FormErrors(d), MailSubject(d), GmailBody(d));
  }

  lemma GmailFlowOpensOnce(errs: set<Field>, subject: string, body: string)
    ensures var t := GmailFlow(errs, subject, body);
            && (errs == {} ==> t[0] == OpenGmail(subject, body))
            && ((exists k :: 0 <= k < |t| && t[k].OpenGmail?) <==> errs == {})
            && Sends(t) == 0 && WhatsAppOpens(t) == 0
            && !ButtonDisabledAfter(false, t)
  {
    var t := GmailFlow(errs, subject, body);
    ButtonUntouched(false, t);
    if errs == {} {
      assert t[0].OpenGmail?;
    }
  }
}
