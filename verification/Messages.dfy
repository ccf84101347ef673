/** The texts the contact form produces from its fields (script.js): the
    subject label, the WhatsApp fallback message (`createWhatsAppMessage`)
    and the body of the Gmail compose link.

    Each builder is written as the page writes it, by appending pieces; the
    lemmas read the result back line by line with `Text.Lines`. */
module Messages {
  import opened Text
  import opened FormValidation
  import opened Options

  /** The subject drop-down's keys and the legal matter each names, in the
      order `subjectMap` lists them. Kept in two halves so that each half's
      texts can be checked on their own. */
  const SubjectMap: seq<(string, string)> := SubjectMapFirst + SubjectMapSecond

  const SubjectMapFirst: seq<(string, string)> := [
    ("divorce", "Civil & Criminal Law"),
    ("cyber", "Cyber Crime"),
    ("pocso", "POCSO & Child Protection"),
    ("corporate", "Corporate & Startup Legal"),
    ("property", "Property & Land")
  ]

  const SubjectMapSecond: seq<(string, string)> := [
    ("medical", "Medical & Healthcare"),
    ("criminal", "Criminal Procedure"),
    ("posh", "POSH & Sexual Offences"),
    ("consultation", "General Consultation"),
    ("other", "Other Legal Matter")
  ]

  /** Every text of a table is a non-empty single line. */
  predicate SingleLineTexts(table: seq<(string, string)>) {
    forall k :: 0 <= k < |table| ==> table[k].1 != "" && NoNewline(table[k].1)
  }

  lemma SubjectMapFirstSingleLine()
    ensures SingleLineTexts(SubjectMapFirst)
  {
  }

  lemma SubjectMapSecondSingleLine()
    ensures SingleLineTexts(SubjectMapSecond)
  {
  }

  lemma SubjectMapSingleLine()
    ensures SingleLineTexts(SubjectMap)
  {
    SubjectMapFirstSingleLine();
    SubjectMapSecondSingleLine();
    assert forall k :: 0 <= k < |SubjectMap| ==>
      SubjectMap[k] == if k < |SubjectMapFirst| then SubjectMapFirst[k] else SubjectMapSecond[k - |SubjectMapFirst|];
  }

  /** A key's entry in a table of pairs: the text of the first pair with
      that key, or nothing when no pair has it. */
  function Lookup(table: seq<(string, string)>, key: string): (text: Option<string>)
    ensures text.Some? ==> exists k :: 0 <= k < |table| && table[k].0 == key && table[k].1 == text.value
    ensures text.None? <==> forall k :: 0 <= k < |table| ==> table[k].0 != key
  {
    if table == [] then None
    else if table[0].0 == key then Some(table[0].1)
    else
      var r := Lookup(table[1..], key);
      assert forall k :: 1 <= k < |table| ==> table[k] == table[1..][k - 1];
      r
  }

  /** `subjectMap[key]`: the legal matter a key of the subject drop-down
      names, or nothing for any other key. */
  function SubjectText(key: string): (text: Option<string>)
    ensures text.Some? ==> text.value != "" && NoNewline(text.value)
    ensures text.None? <==> forall k :: 0 <= k < |SubjectMap| ==> SubjectMap[k].0 != key
  {
    SubjectMapSingleLine();
    Lookup(SubjectMap, key)
  }

  /** `subjectMap[key] || key`: the mapped text for a known key, otherwise
      the key itself. Every mapped text is non-empty, so the fallback only
      applies to unknown keys. */
  function SubjectLabel(key: string): (text: string)
    ensures SubjectText(key).Some? ==> text == SubjectText(key).value
    ensures SubjectText(key).None? ==> text == key
    ensures text == "" <==> key == ""
    ensures NoNewline(key) ==> NoNewline(text)
  {
    match SubjectText(key)
    case Some(t) => t
    case None => key
  }

  // ---------------------------------------------------------------------------
  // createWhatsAppMessage

  const WhatsAppHeader := "*New Consultation Request*"
  const NameTag := "*Name:* "
  const PhoneTag := "*Phone:* "
  const MatterTag := "*Legal Matter:* "
  const DescriptionTag := "*Description:*"
  const WhatsAppFooter := "_Sent from Reliable Legal Solutions Website_"

  /** `createWhatsAppMessage(data)`. */
  function WhatsAppMessage(d: ContactForm): (m: string)
    ensures |m| >= |WhatsAppHeader| + |WhatsAppFooter|
    ensures m[..|WhatsAppHeader|] == WhatsAppHeader
    ensures m[|m| - |WhatsAppFooter|..] == WhatsAppFooter
  {
    ComposeWhatsApp(WhatsAppHeader, NameTag, PhoneTag, MatterTag, DescriptionTag, WhatsAppFooter,
                    d.name, d.phone, SubjectLabel(d.subject), d.message != "" && Trim(d.message) != "", d.message)
  }

  /** The message with its fixed texts as parameters: the header, the three
      tagged lines, the description section when `described`, the footer. */
  function ComposeWhatsApp(header: string, nameTag: string, phoneTag: string, matterTag: string,
                           descTag: string, footer: string,
                           name: string, phone: string, matter: string,
                           described: bool, description: string): (m: string)
    ensures |m| >= |header| + |footer| && m[..|header|] == header
    ensures m[|m| - |footer|..] == footer
  {
    var message := header + "\n\n";
    var message := message + nameTag + name + "\n";
    var message := message + phoneTag + phone + "\n";
    var message := message + matterTag + matter + "\n";
    var message := if described then message + "\n" + descTag + "\n" + description else message;
    message + "\n\n" + footer
  }

  /** The WhatsApp message read back line by line: the header and a blank
      line; Name, Phone and Legal Matter in that order; the description's own
      lines, after a blank line and the Description tag, exactly when the
      trimmed description is non-empty; and the site footer last. The form's
      name, phone and subject inputs are single-line. */
  lemma WhatsAppLines(d: ContactForm)
    requires NoNewline(d.name) && NoNewline(d.phone) && NoNewline(d.subject)
    ensures Lines(WhatsAppMessage(d)) ==
      [WhatsAppHeader, "", NameTag + d.name, PhoneTag + d.phone, MatterTag + SubjectLabel(d.subject)]
      + (if Trim(d.message) != "" then ["", DescriptionTag] + Lines(d.message) else [""])
      + ["", WhatsAppFooter]
  {
    WhatsAppTextsSingleLine();
    NoNewlineAppend(NameTag, d.name);
    NoNewlineAppend(PhoneTag, d.phone);
    NoNewlineAppend(MatterTag, SubjectLabel(d.subject));
    ComposeWhatsAppLines(WhatsAppHeader, NameTag, PhoneTag, MatterTag, DescriptionTag, WhatsAppFooter,
                         d.name, d.phone, SubjectLabel(d.subject), d.message != "" && Trim(d.message) != "", d.message);
  }

  lemma WhatsAppTextsSingleLine()
    ensures NoNewline(WhatsAppHeader) && NoNewline(DescriptionTag) && NoNewline(WhatsAppFooter)
    ensures NoNewline(NameTag) && NoNewline(PhoneTag) && NoNewline(MatterTag)
  {
    WhatsAppFramingSingleLine();
  }

  lemma WhatsAppFramingSingleLine()
    ensures NoNewline(WhatsAppHeader) && NoNewline(WhatsAppFooter)
  {
  }

  lemma NoNewlineAppend(a: string, b: string)
    requires NoNewline(a) && NoNewline(b)
    ensures NoNewline(a + b)
  {
  }

  /** Read back line by line, the composed message is: the header and a blank
      line; the three tagged lines in order; then either the description's
      own lines after a blank line and the description tag, or one more blank
      line; and finally a blank line and the footer. */
  lemma ComposeWhatsAppLines(header: string, nameTag: string, phoneTag: string, matterTag: string,
                             descTag: string, footer: string,
                             name: string, phone: string, matter: string,
                             described: bool, description: string)
    requires NoNewline(header) && NoNewline(descTag) && NoNewline(footer)
    requires NoNewline(nameTag + name) && NoNewline(phoneTag + phone) && NoNewline(matterTag + matter)
    ensures Lines(ComposeWhatsApp(header, nameTag, phoneTag, matterTag, descTag, footer,
                                  name, phone, matter, described, description))
         == [header, "", nameTag + name, phoneTag + phone, matterTag + matter]
            + (if described then ["", descTag] + Lines(description) else [""])
            + ["", footer]
  {
    var j3 := HeadLines(header, nameTag, phoneTag, matterTag, name, phone, matter);
    if described {
      DescribedTail(j3, descTag, description, footer);
    } else {
      PlainTail(j3, footer);
    }
  }

  /** The header and the three tagged lines, each followed by a newline. */
  lemma HeadLines(header: string, nameTag: string, phoneTag: string, matterTag: string,
                  name: string, phone: string, matter: string) returns (j3: string)
    requires NoNewline(header)
    requires NoNewline(nameTag + name) && NoNewline(phoneTag + phone) && NoNewline(matterTag + matter)
    ensures header + "\n\n" + nameTag + name + "\n" + phoneTag + phone + "\n" + matterTag + matter + "\n"
         == j3 + "\n"
    ensures Lines(j3) == [header, "", nameTag + name, phoneTag + phone, matterTag + matter]
  {
    var j0 := header + "\n" + "";
    assert header + "\n\n" == j0 + "\n";
    LinesOfLine(header);
    LinesSnoc(header, "");
    var j1 := AppendLine(j0, nameTag, name);
    var j2 := AppendLine(j1, phoneTag, phone);
    j3 := AppendLine(j2, matterTag, matter);
  }

  lemma DescribedTail(j: string, descTag: string, description: string, footer: string)
    requires NoNewline(descTag) && NoNewline(footer)
    ensures Lines((j + "\n") + "\n" + descTag + "\n" + description + "\n\n" + footer)
         == Lines(j) + ["", descTag] + Lines(description) + ["", footer]
  {
    var tail := "" + "\n" + footer;
    assert (j + "\n") + "\n" + descTag + "\n" + description + "\n\n" + footer
        == j + "\n" + ("" + "\n" + (descTag + "\n" + (description + "\n" + tail)));
    LinesSnoc("", footer);
    LinesOfLine("");
    LinesConcat(description, tail);
    LinesConcat(descTag, description + "\n" + tail);
    LinesOfLine(descTag);
    LinesConcat("", descTag + "\n" + (description + "\n" + tail));
    LinesConcat(j, "" + "\n" + (descTag + "\n" + (description + "\n" + tail)));
  }

  lemma PlainTail(j: string, footer: string)
    requires NoNewline(footer)
    ensures Lines((j + "\n") + "\n\n" + footer) == Lines(j) + ["", "", footer]
  {
    assert (j + "\n") + "\n\n" + footer == j + "\n" + "" + "\n" + "" + "\n" + footer;
    LinesSnoc(j, "");
    LinesSnoc(j + "\n" + "", "");
    LinesSnoc(j + "\n" + "" + "\n" + "", footer);
  }

  /** Appending `tag + value` and a newline to a text that ends in a newline
      adds one line. */
  lemma AppendLine(j: string, tag: string, value: string) returns (j': string)
    requires NoNewline(tag + value)
    ensures j' == j + "\n" + (tag + value)
    ensures (j + "\n") + tag + value + "\n" == j' + "\n"
    ensures Lines(j') == Lines(j) + [tag + value]
  {
    j' := j + "\n" + (tag + value);
    LinesSnoc(j, tag + value);
  }

  lemma LinesSnoc(j: string, line: string)
    requires NoNewline(line)
    ensures Lines(j + "\n" + line) == Lines(j) + [line]
  {
    LinesConcat(j, line);
    LinesOfLine(line);
  }

  // ---------------------------------------------------------------------------
  // The Gmail compose body

  const Greeting := "Dear Reliable Legal Solutions Team,"
  const Request := "I would like to request a consultation for the following matter:"
  const GmailNameTag := "Name: "
  const GmailEmailTag := "Email: "
  const GmailPhoneTag := "Phone: "
  const GmailMatterTag := "Legal Matter: "
  const GmailDescriptionTag := "Description:"
  const Closing := "Best regards,"

  lemma GreetingSingleLine() ensures NoNewline(Greeting) && NoNewline(Closing) { }
  lemma RequestSingleLine() ensures NoNewline(Request) {
    NoNewlineAppend("I would like to request a consultation", " for the following matter:");
  }
  lemma GmailTagsSingleLine()
    ensures NoNewline(GmailNameTag) && NoNewline(GmailEmailTag) && NoNewline(GmailPhoneTag)
    ensures NoNewline(GmailMatterTag) && NoNewline(GmailDescriptionTag)
  {
  }

  /** The `body` the Gmail button puts in the compose link (before
      `encodeURIComponent`). */
  function GmailBody(d: ContactForm): (b: string)
    ensures |b| >= |Greeting| && b[..|Greeting|] == Greeting
    ensures |b| >= |d.name| && b[|b| - |d.name|..] == d.name
  {
    ComposeGmail(Greeting, Request, GmailNameTag, GmailEmailTag, GmailPhoneTag, GmailMatterTag,
                 GmailDescriptionTag, Closing, d.name, d.email, d.phone, SubjectLabel(d.subject), d.message)
  }

  /** The body with its fixed texts as parameters. */
  function ComposeGmail(greeting: string, request: string, nameTag: string, emailTag: string,
                        phoneTag: string, matterTag: string, descTag: string, closing: string,
                        name: string, email: string, phone: string, matter: string,
                        message: string): (b: string)
    ensures |b| >= |greeting| && b[..|greeting|] == greeting
    ensures |b| >= |name| && b[|b| - |name|..] == name
  {
    var body := greeting + "\n\n";
    var body := body + request + "\n\n";
    var body := body + nameTag + name + "\n";
    var body := if email != "" then body + emailTag + email + "\n" else body;
    var body := body + phoneTag + phone + "\n";
    var body := body + matterTag + matter + "\n\n";
    var body := if message != "" then body + descTag + "\n" + message + "\n\n" else body;
    PrefixSuffix(body, closing + "\n", greeting, name);
    body + closing + "\n" + name
  }

  lemma PrefixSuffix(body: string, mid: string, head: string, last: string)
    requires |body| >= |head| && body[..|head|] == head
    ensures |body + mid + last| >= |head| && (body + mid + last)[..|head|] == head
    ensures |body + mid + last| >= |last| && (body + mid + last)[|body + mid + last| - |last|..] == last
  {
  }

  /** The Gmail body read back line by line: greeting, blank, request,
      blank, the Name line, an Email line exactly when an e-mail was given,
      the Phone and Legal Matter lines and a blank; then, exactly when a
      description was given, the Description tag, the description's own
      lines and a blank; and last the closing and the sender's name. */
  lemma GmailLines(d: ContactForm)
    requires NoNewline(d.name) && NoNewline(d.email) && NoNewline(d.phone) && NoNewline(d.subject)
    ensures Lines(GmailBody(d)) ==
      [Greeting, "", Request, "", GmailNameTag + d.name]
      + (if d.email != "" then [GmailEmailTag + d.email] else [])
      + [GmailPhoneTag + d.phone, GmailMatterTag + SubjectLabel(d.subject), ""]
      + (if d.message != "" then [GmailDescriptionTag] + Lines(d.message) + [""] else [])
      + [Closing, d.name]
  {
    GreetingSingleLine();
    RequestSingleLine();
    GmailTagsSingleLine();
    NoNewlineAppend(GmailNameTag, d.name);
    NoNewlineAppend(GmailEmailTag, d.email);
    NoNewlineAppend(GmailPhoneTag, d.phone);
    NoNewlineAppend(GmailMatterTag, SubjectLabel(d.subject));
    ComposeGmailLines(Greeting, Request, GmailNameTag, GmailEmailTag, GmailPhoneTag, GmailMatterTag,
                      GmailDescriptionTag, Closing, d.name, d.email, d.phone, SubjectLabel(d.subject), d.message);
  }

  lemma ComposeGmailLines(greeting: string, request: string, nameTag: string, emailTag: string,
                          phoneTag: string, matterTag: string, descTag: string, closing: string,
                          name: string, email: string, phone: string, matter: string,
                          message: string)
    requires NoNewline(greeting) && NoNewline(request) && NoNewline(descTag) && NoNewline(closing)
    requires NoNewline(name) && NoNewline(nameTag + name) && NoNewline(emailTag + email)
    requires NoNewline(phoneTag + phone) && NoNewline(matterTag + matter)
    ensures Lines(ComposeGmail(greeting, request, nameTag, emailTag, phoneTag, matterTag, descTag, closing,
                               name, email, phone, matter, message)) ==
      [greeting, "", request, "", nameTag + name]
      + (if email != "" then [emailTag + email] else [])
      + [phoneTag + phone, matterTag + matter, ""]
      + (if message != "" then [descTag] + Lines(message) + [""] else [])
      + [closing, name]
  {
    var b2 := greeting + "\n\n" + request + "\n\n" + nameTag + name + "\n";
    var j2 := GmailHead(greeting, request, nameTag, name);
    var b3 := if email != "" then b2 + emailTag + email + "\n" else b2;
    var b4 := b3 + phoneTag + phone + "\n";
    var b5 := b4 + matterTag + matter + "\n\n";
    var j5 := GmailMiddle(j2, b2, emailTag, phoneTag, matterTag, email, phone, matter);
    assert b5 == j5 + "\n";
    var b := ComposeGmail(greeting, request, nameTag, emailTag, phoneTag, matterTag, descTag, closing,
                          name, email, phone, matter, message);
    var middle := Lines(j2) + (if email != "" then [emailTag + email] else []) + [phoneTag + phone, matterTag + matter, ""];
    if message != "" {
      assert b == (j5 + "\n") + descTag + "\n" + message + "\n\n" + closing + "\n" + name;
      DescribedClosing(j5, descTag, closing, message, name);
      assert Lines(b) == middle + [descTag] + Lines(message) + [""] + [closing, name];
    } else {
      assert b == (j5 + "\n") + closing + "\n" + name;
      ClosingLines(j5, closing, name);
      assert Lines(b) == middle + [closing, name];
    }
  }

  lemma GmailHead(greeting: string, request: string, nameTag: string, name: string) returns (j2: string)
    requires NoNewline(greeting) && NoNewline(request) && NoNewline(nameTag + name)
    ensures greeting + "\n\n" + request + "\n\n" + nameTag + name + "\n" == j2 + "\n"
    ensures Lines(j2) == [greeting, "", request, "", nameTag + name]
  {
    var j0 := greeting + "\n" + "";
    assert greeting + "\n\n" == j0 + "\n";
    LinesOfLine(greeting);
    LinesSnoc(greeting, "");
    var j1 := AppendParagraph(j0, request, "");
    assert request + "" == request;
    assert greeting + "\n\n" + request + "\n\n" == (j0 + "\n") + request + "" + "\n\n";
    j2 := AppendLine(j1, nameTag, name);
  }

  lemma GmailMiddle(j2: string, b2: string, emailTag: string, phoneTag: string, matterTag: string,
                    email: string, phone: string, matter: string) returns (j5: string)
    requires b2 == j2 + "\n"
    requires NoNewline(emailTag + email) && NoNewline(phoneTag + phone) && NoNewline(matterTag + matter)
    ensures (if email != "" then b2 + emailTag + email + "\n" else b2) + phoneTag + phone + "\n"
              + matterTag + matter + "\n\n" == j5 + "\n"
    ensures Lines(j5) == Lines(j2) + (if email != "" then [emailTag + email] else [])
                         + [phoneTag + phone, matterTag + matter, ""]
  {
    var j3 := j2;
    if email != "" {
      j3 := AppendLine(j2, emailTag, email);
    }
    var j4 := AppendLine(j3, phoneTag, phone);
    j5 := AppendParagraph(j4, matterTag, matter);
  }

  /** A description section, then the closing and the name. */
  lemma DescribedClosing(j5: string, descTag: string, closing: string, message: string, name: string)
    requires NoNewline(descTag) && NoNewline(closing) && NoNewline(name)
    ensures Lines((j5 + "\n") + descTag + "\n" + message + "\n\n" + closing + "\n" + name)
            == Lines(j5) + [descTag] + Lines(message) + [""] + [closing, name]
  {
    var j6 := AppendDescription(j5, descTag, message);
    ClosingLines(j6, closing, name);
  }

  /** The closing and the sender's name end the body as two lines. */
  lemma ClosingLines(j: string, closing: string, name: string)
    requires NoNewline(closing) && NoNewline(name)
    ensures Lines((j + "\n") + closing + "\n" + name) == Lines(j) + [closing, name]
  {
    assert (j + "\n") + closing + "\n" + name == (j + "\n" + closing) + "\n" + name;
    LinesSnoc(j, closing);
    LinesSnoc(j + "\n" + closing, name);
  }

  /** Appending `tag + value` and a blank line adds that line and a blank one. */
  lemma AppendParagraph(j: string, tag: string, value: string) returns (j': string)
    requires NoNewline(tag + value)
    ensures (j + "\n") + tag + value + "\n\n" == j' + "\n"
    ensures Lines(j') == Lines(j) + [tag + value, ""]
  {
    j' := j + "\n" + (tag + value) + "\n" + "";
    LinesSnoc(j, tag + value);
    LinesSnoc(j + "\n" + (tag + value), "");
  }

  /** Appending the description section adds the tag line, the description's
      own lines and a blank line. */
  lemma AppendDescription(j: string, descTag: string, message: string) returns (j': string)
    requires NoNewline(descTag)
    ensures (j + "\n") + descTag + "\n" + message + "\n\n" == j' + "\n"
    ensures Lines(j') == Lines(j) + [descTag] + Lines(message) + [""]
  {
    var section := descTag + "\n" + (message + "\n" + "");
    j' := j + "\n" + section;
    assert Lines(j') == Lines(j) + [descTag] + Lines(message) + [""] by {
      DescriptionSection(descTag, message);
      LinesConcat(j, section);
    }
  }

  /** The description section on its own: the tag line, the description's
      lines and a blank line. */
  lemma DescriptionSection(descTag: string, message: string)
    requires NoNewline(descTag)
    ensures Lines(descTag + "\n" + (message + "\n" + "")) == [descTag] + Lines(message) + [""]
  {
    LinesConcat(message, "");
    LinesOfLine("");
    LinesConcat(descTag, message + "\n" + "");
    LinesOfLine(descTag);
  }
}
