/** Validation of the consultation form (script.js, `validateForm` and
    `validateField`).

    The two regular expressions of the page become recognisers over
    `string`. Each recogniser is paired with a reading of its expression as a
    language (a ghost predicate built from the expression's pieces), and a
    lemma proves the two agree in both directions. */
module FormValidation {
  import opened Text
  import opened Options

  // ---------------------------------------------------------------------------
  // The e-mail pattern  /^[^\s@]+@[^\s@]+\.[^\s@]+$/

  /** Characters allowed by the class `[^\s@]`. */
  predicate PlainChar(c: char) {
    !IsSpace(c) && c != '@'
  }

  predicate PlainBetween(s: string, lo: int, hi: int)
    requires 0 <= lo && hi <= |s|
  {
    forall k :: lo <= k < hi ==> PlainChar(s[k])
  }

  /** The expression matched with the `@` at index `at` and the `.` at
      index `dot`: three non-empty runs of plain characters around them. */
  ghost predicate EmailSplit(s: string, at: int, dot: int) {
    && 0 < at && at + 1 < dot && dot + 1 < |s|
    && s[at] == '@' && s[dot] == '.'
    && PlainBetween(s, 0, at)
    && PlainBetween(s, at + 1, dot)
    && PlainBetween(s, dot + 1, |s|)
  }

  /** The language of the e-mail expression. */
  ghost predicate EmailPattern(s: string) {
    exists at, dot :: EmailSplit(s, at, dot)
  }

  /** Index of the first occurrence of `c` in `s`. */
  function IndexOf(s: string, c: char): (i: nat)
    requires c in s
    ensures i < |s| && s[i] == c
    ensures forall k :: 0 <= k < i ==> s[k] != c
  {
    if s[0] == c then 0 else 1 + IndexOf(s[1..], c)
  }

  /** The domain part holds a `.` that is neither its first nor its last
      character. */
  predicate InnerDot(d: string) {
    |d| >= 3 && '.' in d[1..|d| - 1]
  }

  /** The e-mail test: no white space, exactly one `@`, a non-empty local
      part before it, and an inner dot in the domain after it. */
  predicate IsEmail(s: string) {
    && NoSpace(s)
    && multiset(s)['@'] == 1
    && var at := IndexOf(s, '@');
       at > 0 && InnerDot(s[at + 1..])
  }

  /** Splitting `s` around one of its characters splits the `@` count. */
  lemma AtCount(s: string, i: int)
    requires 0 <= i < |s|
    ensures multiset(s)['@'] == multiset(s[..i])['@'] + multiset([s[i]])['@'] + multiset(s[i + 1..])['@']
  {
    assert s == s[..i] + [s[i]] + s[i + 1..];
  }

  lemma NoAtCount(s: string, lo: int, hi: int)
    requires 0 <= lo <= hi <= |s|
    ensures (forall k :: lo <= k < hi ==> s[k] != '@') <==> multiset(s[lo..hi])['@'] == 0
  {
    if forall k :: lo <= k < hi ==> s[k] != '@' {
      assert '@' !in s[lo..hi];
    } else {
      var k :| lo <= k < hi && s[k] == '@';
      assert s[lo..hi][k - lo] == '@';
    }
  }

  /** The e-mail recogniser accepts exactly the language of the expression. */
  lemma EmailPatternIff(s: string)
    ensures IsEmail(s) <==> EmailPattern(s)
  {
    if EmailPattern(s) {
      var at, dot :| EmailSplit(s, at, dot);
      EmailSplitIsEmail(s, at, dot);
    }
    if IsEmail(s) {
      IsEmailSplits(s);
    }
  }

  lemma EmailSplitIsEmail(s: string, at: int, dot: int)
    requires EmailSplit(s, at, dot)
    ensures IsEmail(s)
  {
    assert NoSpace(s) by {
      forall k | 0 <= k < |s| ensures !IsSpace(s[k]) {
        if k != at && k != dot {
          assert PlainChar(s[k]);
        }
      }
    }
    AtCount(s, at);
    NoAtCount(s, 0, at);
    NoAtCount(s, at + 1, |s|);
    assert IndexOf(s, '@') == at;
    var d := s[at + 1..];
    assert d[dot - at - 1] == '.';
    assert d[1..|d| - 1][dot - at - 2] == '.';
  }

  lemma IsEmailSplits(s: string)
    requires IsEmail(s)
    ensures EmailPattern(s)
  {
    var at := IndexOf(s, '@');
    var d := s[at + 1..];
    var j :| 0 <= j < |d| - 2 && d[1..|d| - 1][j] == '.';
    var dot := at + 2 + j;
    AtCount(s, at);
    NoAtCount(s, at + 1, |s|);
    assert s[dot] == '.';
    assert EmailSplit(s, at, dot);
  }

  // ---------------------------------------------------------------------------
  // The phone pattern
  //   /^[\+]?[(]?[0-9]{3}[)]?[-\s\.]?[0-9]{3}[-\s\.]?[0-9]{4,6}$/

  predicate IsDigit(c: char) {
    '0' <= c <= '9'
  }

  predicate AllDigits(s: string) {
    forall k :: 0 <= k < |s| ==> IsDigit(s[k])
  }

  /** Characters allowed by the separator class `[-\s\.]`. */
  predicate IsSeparator(c: char) {
    c == '-' || IsSpace(c) || c == '.'
  }

  /** One way of matching the phone expression, piece by piece: the optional
      `+`, `(`, `)` and separators, and the three digit groups. A separator
      is empty or one separator character. */
  datatype PhoneParts = PhoneParts(
    plus: bool, open: bool, area: string, close: bool,
    sep1: string, exchange: string, sep2: string, line: string)
  {
    predicate Valid() {
      && |area| == 3 && AllDigits(area)
      && |exchange| == 3 && AllDigits(exchange)
      && 4 <= |line| <= 6 && AllDigits(line)
      && OptionalSeparator(sep1) && OptionalSeparator(sep2)
    }

    /** The text these pieces match. */
    function Text(): string {
      Flag(plus, '+') + (Flag(open, '(') + (area
      + (Flag(close, ')') + (sep1 + (exchange + (sep2 + line))))))
    }
  }

  /** The one-character text of an optional piece, or nothing. */
  function Flag(present: bool, c: char): string {
    if present then [c] else []
  }

  predicate OptionalSeparator(s: string) {
    |s| <= 1 && (|s| == 1 ==> IsSeparator(s[0]))
  }

  /** The language of the phone expression. */
  ghost predicate PhonePattern(s: string) {
    exists p: PhoneParts :: p.Valid() && p.Text() == s
  }

  /** Consumes `c` if it is the next character. */
  function Optional(s: string, c: char): (r: (bool, string))
    ensures s == Flag(r.0, c) + r.1
    ensures !r.0 ==> |s| == 0 || s[0] != c
  {
    if |s| > 0 && s[0] == c then (true, s[1..]) else (false, s)
  }

  /** Consumes one separator character if it is next. */
  function OptionalSep(s: string): (r: (string, string))
    ensures s == r.0 + r.1 && OptionalSeparator(r.0)
    ensures r.0 == [] ==> |s| == 0 || !IsSeparator(s[0])
  {
    if |s| > 0 && IsSeparator(s[0]) then (s[..1], s[1..]) else ("", s)
  }

  /** Reads the phone expression left to right. Every optional piece is a
      character class disjoint from what may follow it, so taking it whenever
      it is present is the only way to match. */
  function ParsePhone(s: string): (r: Option<PhoneParts>)
    ensures r.Some? ==> r.value.Valid() && r.value.Text() == s
  {
    var (plus, s1) := Optional(s, '+');
    var (open, s2) := Optional(s1, '(');
    if |s2| < 3 || !AllDigits(s2[..3]) then None
    else
      var (close, s4) := Optional(s2[3..], ')');
      var (sep1, s5) := OptionalSep(s4);
      if |s5| < 3 || !AllDigits(s5[..3]) then None
      else
        var (sep2, s7) := OptionalSep(s5[3..]);
        if 4 <= |s7| <= 6 && AllDigits(s7) then
          var p := PhoneParts(plus, open, s2[..3], close, sep1, s5[..3], sep2, s7);
          Reassemble(s, s1, s2, s2[3..], s4, s5, s5[3..], p);
          Some(p)
        else None
  }

  lemma Reassemble(s: string, s1: string, s2: string, s3: string, s4: string,
                   s5: string, s6: string, p: PhoneParts)
    requires s == Flag(p.plus, '+') + s1
    requires s1 == Flag(p.open, '(') + s2
    requires |s2| >= 3 && s2[..3] == p.area && s3 == s2[3..]
    requires s3 == Flag(p.close, ')') + s4
    requires s4 == p.sep1 + s5
    requires |s5| >= 3 && s5[..3] == p.exchange && s6 == s5[3..]
    requires s6 == p.sep2 + p.line
    ensures p.Text() == s
  {
    assert s2 == p.area + s3;
    assert s5 == p.exchange + s6;
  }

  /** `test` of the phone expression. */
  predicate IsPhone(s: string) {
    ParsePhone(s).Some?
  }

  /** Every way of matching the expression is the one the reader finds. */
  lemma ParsePhoneComplete(p: PhoneParts)
    requires p.Valid()
    ensures ParsePhone(p.Text()) == Some(p)
  {
    var rest7 := p.sep2 + p.line;
    var rest6 := p.exchange + rest7;
    var rest5 := p.sep1 + rest6;
    var rest4 := Flag(p.close, ')') + rest5;
    var rest2 := p.area + rest4;
    var rest1 := Flag(p.open, '(') + rest2;
    assert p.Text() == Flag(p.plus, '+') + rest1;
    assert rest2[..3] == p.area && rest2[3..] == rest4;
    assert rest6[..3] == p.exchange && rest6[3..] == rest7;
    assert rest6[0] == p.exchange[0];
    assert rest5[0] == (if |p.sep1| == 1 then p.sep1[0] else p.exchange[0]);
    assert rest2[0] == p.area[0];
    assert rest1[0] == (if p.open then '(' else p.area[0]);
    OptionalStep(rest2, p.open, '(');
    OptionalStep(rest1, p.plus, '+');
    OptionalStep(rest5, p.close, ')');
    SeparatorStep(p.sep1, rest6);
    SeparatorStep(p.sep2, p.line);
  }

  /** An optional character is consumed exactly when it was put there,
      provided what follows does not begin with that character. */
  lemma OptionalStep(y: string, present: bool, c: char)
    requires |y| > 0 && y[0] != c
    ensures Optional(Flag(present, c) + y, c) == (present, y)
  {
    if present {
      assert ([c] + y)[1..] == y;
    } else {
      assert [] + y == y;
    }
  }

  lemma SeparatorStep(sep: string, y: string)
    requires OptionalSeparator(sep) && |y| > 0 && IsDigit(y[0])
    ensures OptionalSep(sep + y) == (sep, y)
  {
    if |sep| == 1 {
      assert (sep + y)[..1] == sep && (sep + y)[1..] == y;
    } else {
      assert sep + y == y;
    }
  }

  /** The phone recogniser accepts exactly the language of the expression. */
  lemma PhonePatternIff(s: string)
    ensures IsPhone(s) <==> PhonePattern(s)
  {
    if PhonePattern(s) {
      var p: PhoneParts :| p.Valid() && p.Text() == s;
      ParsePhoneComplete(p);
    }
  }

  /** Number of decimal digits in `s`. */
  function DigitCount(s: string): (n: nat)
    ensures n <= |s|
    ensures AllDigits(s) ==> n == |s|
  {
    if |s| == 0 then 0 else (if IsDigit(s[0]) then 1 else 0) + DigitCount(s[1..])
  }

  lemma {:induction false} DigitCountAppend(a: string, b: string)
    ensures DigitCount(a + b) == DigitCount(a) + DigitCount(b)
    decreases |a|
  {
    if |a| == 0 {
      assert a + b == b;
    } else {
      assert (a + b)[1..] == a[1..] + b;
      DigitCountAppend(a[1..], b);
    }
  }

  lemma NoDigitCount(s: string)
    requires forall k :: 0 <= k < |s| ==> !IsDigit(s[k])
    ensures DigitCount(s) == 0
  {
  }

  /** The digits of a matched number are those of its three groups. */
  lemma PartsDigitCount(p: PhoneParts)
    requires p.Valid()
    ensures DigitCount(p.Text()) == 6 + |p.line|
  {
    var rest7 := p.sep2 + p.line;
    var rest6 := p.exchange + rest7;
    var rest5 := p.sep1 + rest6;
    var rest4 := Flag(p.close, ')') + rest5;
    var rest2 := p.area + rest4;
    var rest1 := Flag(p.open, '(') + rest2;
    NoDigitCount(Flag(p.plus, '+'));
    NoDigitCount(Flag(p.open, '('));
    NoDigitCount(Flag(p.close, ')'));
    NoDigitCount(p.sep1);
    NoDigitCount(p.sep2);
    DigitCountAppend(p.sep2, p.line);
    DigitCountAppend(p.exchange, rest7);
    DigitCountAppend(p.sep1, rest6);
    DigitCountAppend(Flag(p.close, ')'), rest5);
    DigitCountAppend(p.area, rest4);
    DigitCountAppend(Flag(p.open, '('), rest2);
    DigitCountAppend(Flag(p.plus, '+'), rest1);
  }

  /** Every accepted phone number carries between 10 and 12 digits. */
  lemma PhoneDigits(s: string)
    requires IsPhone(s)
    ensures 10 <= DigitCount(s) <= 12
  {
    PartsDigitCount(ParsePhone(s).value);
  }

  /** Any ten plain digits form an accepted phone number. */
  lemma TenDigitsArePhone(s: string)
    requires |s| == 10 && AllDigits(s)
    ensures IsPhone(s)
  {
    var p := PhoneParts(false, false, s[..3], false, "", s[3..6], "", s[6..]);
    assert p.Text() == s[..3] + (s[3..6] + s[6..]);
    assert s == s[..3] + (s[3..6] + s[6..]);
    ParsePhoneComplete(p);
  }

  // ---------------------------------------------------------------------------
  // validateForm / validateField

  /** The fields of the contact form, as `Object.fromEntries(new FormData(form))`
      sees them. A field the form does not submit is the empty string. */
  datatype ContactForm = ContactForm(
    name: string, email: string, phone: string,
    subject: string, message: string, botcheck: string)

  datatype Field = Name | Email | Phone | Subject

  function FieldName(f: Field): string {
    match f
    case Name => "name"
    case Email => "email"
    case Phone => "phone"
    case Subject => "subject"
  }

  function FieldValue(d: ContactForm, f: Field): string {
    match f
    case Name => d.name
    case Email => d.email
    case Phone => d.phone
    case Subject => d.subject
  }

  /** `validateForm`'s e-mail check: a non-blank address that does not
      match the expression once trimmed. */
  function EmailRejected(email: string): (bad: bool)
    ensures bad <==> Trim(email) != "" && !EmailPattern(Trim(email))
  {
    var value := Trim(email);
    EmailPatternIff(value);
    email != "" && value != "" && !IsEmail(value)
  }

  /** `validateForm`'s phone check: with all white space removed, the
      number does not match the expression. */
  function PhoneRejected(phone: string): (bad: bool)
    ensures bad <==> !PhonePattern(StripSpaces(phone))
  {
    var value := StripSpaces(phone);
    PhonePatternIff(value);
    phone == "" || !IsPhone(value)
  }

  /** Whether `validateForm` marks field `f` with an error message. */
  predicate Marked(d: ContactForm, f: Field) {
    match f
    case Name => d.name == "" || |Trim(d.name)| < 2
    case Email => EmailRejected(d.email)
    case Phone => PhoneRejected(d.phone)
    case Subject => d.subject == ""
  }

  /** The fields `validateForm` marks with an error message. */
  function FormErrors(d: ContactForm): (errs: set<Field>)
    ensures Name in errs <==> |Trim(d.name)| < 2
    ensures Email in errs <==> Trim(d.email) != "" && !EmailPattern(Trim(d.email))
    ensures Phone in errs <==> !PhonePattern(StripSpaces(d.phone))
    ensures Subject in errs <==> d.subject == ""
  {
    MarkedMeaning(d);
    set f: Field | f in {Name, Email, Phone, Subject} && Marked(d, f)
  }

  /** What each mark means, stated without `validateForm`'s redundant
      emptiness tests. */
  lemma MarkedMeaning(d: ContactForm)
    ensures Marked(d, Name) <==> |Trim(d.name)| < 2
    ensures Marked(d, Email) <==> Trim(d.email) != "" && !EmailPattern(Trim(d.email))
    ensures Marked(d, Phone) <==> !PhonePattern(StripSpaces(d.phone))
    ensures Marked(d, Subject) <==> d.subject == ""
  {
  }

  /** `validateForm`: true when no field is marked. */
  predicate ValidateForm(d: ContactForm) {
    FormErrors(d) == {}
  }

  /** `validateField` on a field called `name` holding `raw`; fields with any
      other name are always accepted. */
  function ValidateField(name: string, raw: string): (ok: bool)
    ensures name == "name" ==> (ok <==> |Trim(raw)| >= 2)
    ensures name == "email" ==> (ok <==> Trim(raw) == "" || EmailPattern(Trim(raw)))
    ensures name == "phone" ==> (ok <==> PhonePattern(StripSpaces(raw)))
    ensures name == "subject" ==> (ok <==> !AllSpace(raw))
    ensures name !in {"name", "email", "phone", "subject"} ==> ok
  {
    var value := Trim(raw);
    EmailPatternIff(value);
    StripSpacesOfTrim(raw);
    PhonePatternIff(StripSpaces(raw));
    if name == "name" then |value| >= 2
    else if name == "email" then value == "" || IsEmail(value)
    else if name == "phone" then IsPhone(StripSpaces(value))
    else if name == "subject" then value != ""
    else true
  }

  /** The whole-form check and the per-field check agree on every field,
      except that the form accepts a subject made only of white space while
      the field check, which trims first, rejects it. */
  lemma FormAgreesWithFields(d: ContactForm, f: Field)
    requires f == Subject ==> d.subject == "" || !AllSpace(d.subject)
    ensures f in FormErrors(d) <==> !ValidateField(FieldName(f), FieldValue(d, f))
  {
  }

  /** Hence the form is valid exactly when every field passes on its own. */
  lemma ValidateFormIffFields(d: ContactForm)
    requires d.subject == "" || !AllSpace(d.subject)
    ensures ValidateForm(d) <==> forall f: Field :: ValidateField(FieldName(f), FieldValue(d, f))
  {
    forall f: Field ensures f in FormErrors(d) <==> !ValidateField(FieldName(f), FieldValue(d, f)) {
      FormAgreesWithFields(d, f);
    }
  }

  /** Ten digits typed with no other characters pass the phone check. */
  lemma TenDigitsPass(phone: string)
    requires |phone| == 10 && AllDigits(phone)
    ensures !PhoneRejected(phone)
  {
    assert NoSpace(phone);
    TenDigitsArePhone(phone);
    PhonePatternIff(phone);
  }

  /** A form passes when each field's own test passes. */
  lemma ValidFromFields(d: ContactForm)
    requires |Trim(d.name)| >= 2 && !EmailRejected(d.email) && !PhoneRejected(d.phone) && d.subject != ""
    ensures ValidateForm(d)
  {
    assert forall f: Field :: !Marked(d, f);
  }

  /** A sample form with a four-letter name, no e-mail, a ten-digit
      phone number and no description, valid for any non-empty subject. */
  function SampleForm(subject: string, botcheck: string): (d: ContactForm)
    ensures subject != "" ==> ValidateForm(d)
  {
    var d := ContactForm("Asha", "", seq(10, _ => '5'), subject, "", botcheck);
    TrimOfTrimmed(d.name);
    TenDigitsPass(d.phone);
    if subject != "" then ValidFromFields(d); d else d
  }

  /** The one place where they differ: a blank-but-not-empty subject, here
      in an otherwise valid form. */
  lemma BlankSubjectDisagrees()
    ensures ValidateForm(SampleForm(" ", "")) && !ValidateField("subject", " ")
  {
  }
}
