/**
 * The contact form: its three-field state, the single-field update, the
 * submit sequence (presence check, then the email pattern, then the send),
 * and the mailto fallback used when the send fails.
 */
module ContactForm {
  import opened Optional

  datatype FormData = FormData(name: string, email: string, message: string)

  const EMPTY_FORM: FormData := FormData("", "", "")

  datatype Field = Name | Email | Message

  /** The form field an input's `name` attribute designates, if any. */
  function FieldNamed(key: string): Option<Field> {
    if key == "name" then Some(Name)
    else if key == "email" then Some(Email)
    else if key == "message" then Some(Message)
    else None
  }

  function Get(d: FormData, f: Field): string {
    match f
    case Name => d.name
    case Email => d.email
    case Message => d.message
  }

  /**
   * handleInputChange: `{...formData, [key]: value}`. Exactly the named field
   * takes the new value; an unknown key adds a property that no field reads.
   */
  function UpdateField(d: FormData, key: string, value: string): (r: FormData)
    ensures forall f: Field :: Get(r, f) == if FieldNamed(key) == Some(f) then value else Get(d, f)
  {
    match FieldNamed(key)
    case Some(Name) => d.(name := value)
    case Some(Email) => d.(email := value)
    case Some(Message) => d.(message := value)
    case None => d
  }

  // The email pattern ^[^\s@]+@[^\s@]+\.[^\s@]+$

  /** The characters \s matches in an ECMAScript regular expression. */
  predicate IsWhitespace(c: char) {
    var n := c as int;
    || 0x09 <= n <= 0x0D
    || n == 0x20 || n == 0xA0 || n == 0x1680
    || 0x2000 <= n <= 0x200A
    || n == 0x2028 || n == 0x2029 || n == 0x202F || n == 0x205F || n == 0x3000 || n == 0xFEFF
  }

  predicate NoWhitespace(s: string) {
    forall k :: 0 <= k < |s| ==> !IsWhitespace(s[k])
  }

  /** How many times c occurs in s. */
  function CountOf(s: string, c: char): (n: nat)
    ensures n <= |s|
    ensures n == 0 <==> c !in s
  {
    if s == [] then 0 else (if s[0] == c then 1 else 0) + CountOf(s[1..], c)
  }

  /** The first position of c in s, or |s| when c does not occur. */
  function IndexOf(s: string, c: char): (i: nat)
    ensures i <= |s|
    ensures i < |s| ==> s[i] == c
    ensures forall k :: 0 <= k < i ==> s[k] != c
  {
    if s == [] then 0
    else if s[0] == c then 0
    else 1 + IndexOf(s[1..], c)
  }

  /** The domain has a '.' with at least one character on each side. */
  predicate HasInnerDot(domain: string) {
    exists i :: 1 <= i <= |domain| - 2 && domain[i] == '.'
  }

  /**
   * The email check as the form applies it: no whitespace, exactly one '@',
   * a non-empty part before it, and an inner '.' in the part after it.
   */
  predicate IsValidEmail(s: string) {
    && NoWhitespace(s)
    && CountOf(s, '@') == 1
    && var at := IndexOf(s, '@');
       0 < at < |s| && HasInnerDot(s[at + 1..])
  }

  /** [^\s@] */
  predicate PlainChar(c: char) {
    !IsWhitespace(c) && c != '@'
  }

  /** [^\s@]+ */
  predicate PlainRun(t: string) {
    |t| > 0 && forall k :: 0 <= k < |t| ==> PlainChar(t[k])
  }

  /** The regular expression read literally: s = run '@' run '.' run. */
  ghost predicate MatchesEmailRegex(s: string) {
    exists at, dot :: 0 <= at < dot < |s| && s[at] == '@' && s[dot] == '.' &&
      PlainRun(s[..at]) && PlainRun(s[at + 1..dot]) && PlainRun(s[dot + 1..])
  }

  lemma {:induction false} CountOfConcat(a: string, b: string, c: char)
    ensures CountOf(a + b, c) == CountOf(a, c) + CountOf(b, c)
  {
    if a == [] {
      assert a + b == b;
    } else {
      CountOfConcat(a[1..], b, c);
      assert (a + b)[0] == a[0];
      assert (a + b)[1..] == a[1..] + b;
    }
  }

  /** A character occurring exactly at one position is counted once, and is found there first. */
  lemma SingleOccurrence(s: string, c: char, i: nat)
    requires i < |s| && s[i] == c
    requires forall k :: 0 <= k < |s| && k != i ==> s[k] != c
    ensures CountOf(s, c) == 1 && IndexOf(s, c) == i
  {
    assert s == s[..i] + [c] + s[i + 1..];
    CountOfConcat(s[..i] + [c], s[i + 1..], c);
    CountOfConcat(s[..i], [c], c);
    assert c !in s[..i];
    var after := s[i + 1..];
    assert forall k :: 0 <= k < |after| ==> after[k] == s[i + 1 + k];
    assert c !in after;
  }

  /** A character counted once occurs nowhere but at its first position. */
  lemma {:induction false} CountOneIsFirst(s: string, c: char, k: nat)
    requires CountOf(s, c) == 1 && k < |s| && s[k] == c
    ensures k == IndexOf(s, c)
  {
    if s[0] != c {
      assert s[1..][k - 1] == c;
      CountOneIsFirst(s[1..], c, k - 1);
    } else {
      assert CountOf(s[1..], c) == 0;
      assert forall j :: 1 <= j < |s| ==> s[j] == s[1..][j - 1];
    }
  }

  /** Every string the form's email check accepts matches the regular expression. */
  lemma EmailCheckSound(s: string)
    requires IsValidEmail(s)
    ensures MatchesEmailRegex(s)
  {
    var at := IndexOf(s, '@');
    var domain := s[at + 1..];
    var i :| 1 <= i <= |domain| - 2 && domain[i] == '.';
    var dot := at + 1 + i;
    assert s[dot] == '.';
    forall k | 0 <= k < |s| && k != at
      ensures PlainChar(s[k])
    {
      if s[k] == '@' { CountOneIsFirst(s, '@', k); }
    }
    var local, middle, top := s[..at], s[at + 1..dot], s[dot + 1..];
    assert forall k :: 0 <= k < |local| ==> local[k] == s[k];
    assert forall k :: 0 <= k < |middle| ==> middle[k] == s[at + 1 + k];
    assert forall k :: 0 <= k < |top| ==> top[k] == s[dot + 1 + k];
    assert PlainRun(local) && PlainRun(middle) && PlainRun(top);
  }

  /** Every string the regular expression matches passes the form's email check. */
  lemma EmailCheckComplete(s: string)
    requires MatchesEmailRegex(s)
    ensures IsValidEmail(s)
  {
    var at, dot :| 0 <= at < dot < |s| && s[at] == '@' && s[dot] == '.' &&
      PlainRun(s[..at]) && PlainRun(s[at + 1..dot]) && PlainRun(s[dot + 1..]);
    var local, middle, top := s[..at], s[at + 1..dot], s[dot + 1..];
    forall k | 0 <= k < |s|
      ensures !IsWhitespace(s[k]) && (k != at ==> s[k] != '@')
    {
      if k < at {
        assert local[k] == s[k];
      } else if at < k < dot {
        assert middle[k - at - 1] == s[k];
      } else if dot < k {
        assert top[k - dot - 1] == s[k];
      }
    }
    SingleOccurrence(s, '@', at);
    var domain := s[at + 1..];
    assert domain[dot - at - 1] == '.';
    assert HasInnerDot(domain);
  }

  /** The form's email check accepts exactly the strings the regular expression matches. */
  lemma EmailCheckMatchesRegex(s: string)
    ensures IsValidEmail(s) <==> MatchesEmailRegex(s)
  {
    if IsValidEmail(s) { EmailCheckSound(s); }
    if MatchesEmailRegex(s) { EmailCheckComplete(s); }
  }

  const MISSING_FIELDS: string := "Please fill in all fields"
  const INVALID_EMAIL: string := "Please enter a valid email address"

  /**
   * The validation of handleSubmit: a field is missing only when it is the
   * empty string; that check comes first, then the email pattern.
   */
  function CheckSubmission(d: FormData): (err: Option<string>)
    ensures err.None? <==> d.name != "" && d.email != "" && d.message != "" && IsValidEmail(d.email)
    ensures err == Some(MISSING_FIELDS) <==> d.name == "" || d.email == "" || d.message == ""
    ensures err.Some? ==> err.value == MISSING_FIELDS || err.value == INVALID_EMAIL
  {
    if d.name == "" || d.email == "" || d.message == "" then Some(MISSING_FIELDS)
    else if !IsValidEmail(d.email) then Some(INVALID_EMAIL)
    else None
  }

  /** The order of the checks shows: an empty email is reported missing, although it is also not a valid email. */
  lemma EmptyEmailReportsMissing(d: FormData)
    requires d.email == ""
    ensures !IsValidEmail(d.email)
    ensures CheckSubmission(d) == Some(MISSING_FIELDS)
  {
  }

  /**
   * Whitespace counts as content: the presence check does not trim, so fields
   * holding only whitespace pass it, and the form is rejected only because
   * such an email is not valid.
   */
  lemma BlankFieldsAreNotMissing(d: FormData)
    requires d.name != "" && d.email != "" && d.message != ""
    requires forall k :: 0 <= k < |d.email| ==> IsWhitespace(d.email[k])
    ensures CheckSubmission(d) == Some(INVALID_EMAIL)
  {
    assert IsWhitespace(d.email[0]);
  }

  const SUBJECT_PREFIX: string := "Portfolio Contact from "
  const NAME_LABEL: string := "Name: "
  const EMAIL_LABEL: string := "\nEmail: "
  const MESSAGE_LABEL: string := "\n\nMessage:\n"

  /** The subject of the mailto fallback. */
  function FallbackSubject(name: string): (subject: string)
    ensures |subject| == |SUBJECT_PREFIX| + |name|
    ensures subject[..|SUBJECT_PREFIX|] == SUBJECT_PREFIX && subject[|SUBJECT_PREFIX|..] == name
  {
    SUBJECT_PREFIX + name
  }

  /** The body of the mailto fallback. */
  function FallbackBody(d: FormData): string {
    NAME_LABEL + d.name + EMAIL_LABEL + d.email + MESSAGE_LABEL + d.message
  }

  /** The rest of s after the given prefix, if s starts with it. */
  function StripPrefix(s: string, prefix: string): (rest: Option<string>)
    ensures rest.Some? ==> s == prefix + rest.value
  {
    if |prefix| <= |s| && s[..|prefix|] == prefix then Some(s[|prefix|..]) else None
  }

  /** s split before its first line break (the whole of s when there is none). */
  function SplitLine(s: string): (parts: (string, string))
    ensures parts.0 + parts.1 == s && '\n' !in parts.0
  {
    var i := IndexOf(s, '\n');
    assert forall k :: 0 <= k < i ==> s[..i][k] == s[k];
    (s[..i], s[i..])
  }

  /** Reads the three fields back out of a fallback body: each label in turn, a field ending at the next line break. */
  function ParseFallbackBody(body: string): Option<FormData> {
    match StripPrefix(body, NAME_LABEL)
    case None => None
    case Some(rest) =>
      var (name, afterName) := SplitLine(rest);
      match StripPrefix(afterName, EMAIL_LABEL)
      case None => None
      case Some(rest2) =>
        var (email, afterEmail) := SplitLine(rest2);
        match StripPrefix(afterEmail, MESSAGE_LABEL)
        case None => None
        case Some(message) => Some(FormData(name, email, message))
  }

  lemma StripPrefixOf(prefix: string, t: string)
    ensures StripPrefix(prefix + t, prefix) == Some(t)
  {
    assert (prefix + t)[..|prefix|] == prefix;
    assert (prefix + t)[|prefix|..] == t;
  }

  /** SplitLine stops right after a line that holds no line break. */
  lemma SplitLineOf(line: string, tail: string)
    requires '\n' !in line && |tail| > 0 && tail[0] == '\n'
    ensures SplitLine(line + tail) == (line, tail)
  {
    var s := line + tail;
    assert s[|line|] == '\n';
    assert forall j :: 0 <= j < |line| ==> s[j] == line[j];
    assert IndexOf(s, '\n') == |line|;
    assert s[..|line|] == line && s[|line|..] == tail;
  }

  /**
   * The fallback body loses nothing: when name and email hold no line break,
   * the three fields are recovered from it exactly.
   */
  lemma FallbackBodyRoundTrip(d: FormData)
    requires '\n' !in d.name && '\n' !in d.email
    ensures ParseFallbackBody(FallbackBody(d)) == Some(d)
  {
    var afterEmail := MESSAGE_LABEL + d.message;
    var afterName := EMAIL_LABEL + (d.email + afterEmail);
    var rest := d.name + afterName;
    assert FallbackBody(d) == NAME_LABEL + rest;
    StripPrefixOf(NAME_LABEL, rest);
    SplitLineOf(d.name, afterName);
    StripPrefixOf(EMAIL_LABEL, d.email + afterEmail);
    SplitLineOf(d.email, afterEmail);
    StripPrefixOf(MESSAGE_LABEL, d.message);
  }

  /** A valid email never holds a line break, so every validated submission has a recoverable fallback body when its name has none. */
  lemma ValidEmailHasNoLineBreak(s: string)
    requires IsValidEmail(s)
    ensures '\n' !in s
  {
    assert IsWhitespace('\n');
  }

  /** The recipient of the EmailJS template and of the mailto fallback. */
  const TEMPLATE_RECIPIENT: string := "akshaykashyap7879@gmail.com"
  const MAILTO_RECIPIENT: string := "akshaykashyap0545@gmail.com"

  /** The template parameters handed to emailjs.send. */
  datatype TemplateParams = TemplateParams(fromName: string, fromEmail: string, message: string, toEmail: string)

  function ParamsOf(d: FormData): TemplateParams
  {
    TemplateParams(d.name, d.email, d.message, TEMPLATE_RECIPIENT)
  }

  /** How a submission ends: rejected with a toast, sent, or handed to the mail client. */
  datatype SubmitOutcome =
    | Rejected(description: string)
    | Sent(params: TemplateParams)
    | MailtoOpened(recipient: string, subject: string, body: string)

  class Form {
    var data: FormData
    var isSubmitting: bool
    /** Every value passed to setIsSubmitting, in order. */
    ghost var submittingLog: seq<bool>

    constructor ()
      ensures data == EMPTY_FORM && !isSubmitting && submittingLog == []
    {
      data := EMPTY_FORM;
      isSubmitting := false;
      submittingLog := [];
    }

    /** handleInputChange for the input named key. */
    method InputChange(key: string, value: string)
      modifies this`data
      ensures data == UpdateField(old(data), key, value)
    {
      data := UpdateField(data, key, value);
    }

    /**
     * handleSubmit, with the result of emailjs.send passed in. The flag is
     * raised on entry and lowered on every exit; the send is attempted only
     * for a form that validates; the form is cleared only after a send that
     * succeeded; a failed send falls back to a mailto link built from the
     * form as submitted. The call is atomic: no input change can interleave
     * with the send.
     */
    method Submit(sendSucceeds: bool) returns (outcome: SubmitOutcome)
      modifies this`data, this`isSubmitting, this`submittingLog
      ensures !isSubmitting && submittingLog == old(submittingLog) + [true, false]
      ensures CheckSubmission(old(data)).Some? ==>
        outcome == Rejected(CheckSubmission(old(data)).value) && data == old(data)
      ensures CheckSubmission(old(data)).None? && sendSucceeds ==>
        outcome == Sent(ParamsOf(old(data))) && data == EMPTY_FORM
      ensures CheckSubmission(old(data)).None? && !sendSucceeds ==>
        && outcome == MailtoOpened(MAILTO_RECIPIENT, FallbackSubject(old(data).name), FallbackBody(old(data)))
        && data == old(data)
    {
      isSubmitting := true;
      submittingLog := submittingLog + [true];
      var err := CheckSubmission(data);
      if err.Some? {
        outcome := Rejected(err.value);
      } else if sendSucceeds {
        outcome := Sent(ParamsOf(data));
        data := EMPTY_FORM;
      } else {
        outcome := MailtoOpened(MAILTO_RECIPIENT, FallbackSubject(data.name), FallbackBody(data));
      }
      isSubmitting := false;
      submittingLog := submittingLog + [false];
    }
  }
}
