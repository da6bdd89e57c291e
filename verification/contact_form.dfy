/** The "Contact us" page: field validation, editing and submission. */
module ContactForm {

  import opened Common
  import opened Text

  datatype Field = Name | Email | Phone | Subject | Category | Message

  /** The form's values. */
  datatype Form = Form(name: string, email: string, phone: string,
                       subject: string, category: string, message: string)

  function Get(f: Form, k: Field): string
  {
    match k
    case Name => f.name
    case Email => f.email
    case Phone => f.phone
    case Subject => f.subject
    case Category => f.category
    case Message => f.message
  }

  /** `{ ...form, [k]: v }`. */
  function Set(f: Form, k: Field, v: string): (r: Form)
    ensures Get(r, k) == v
    ensures forall k' :: k' != k ==> Get(r, k') == Get(f, k')
  {
    match k
    case Name => f.(name := v)
    case Email => f.(email := v)
    case Phone => f.(phone := v)
    case Subject => f.(subject := v)
    case Category => f.(category := v)
    case Message => f.(message := v)
  }

  /** The form as first shown and after a successful submission. */
  const Initial := Form("", "", "", "", "general", "")

  const NameRequired := "Name is required"
  const EmailRequired := "Email is required"
  const EmailInvalid := "Invalid email format"
  const SubjectRequired := "Subject is required"
  const MessageRequired := "Message is required"
  const MessageTooShort := "Message must be at least 10 characters long"

  /** One `[^\s@]+` run of the email pattern. */
  predicate PlainRun(s: string)
  {
    |s| > 0 && forall i :: 0 <= i < |s| ==> !IsSpace(s[i]) && s[i] != '@'
  }

  /** The meaning of `/^[^\s@]+@[^\s@]+\.[^\s@]+$/`: the address splits into
      three runs without whitespace or '@', joined by '@' and then '.'. */
  ghost predicate MatchesEmailPattern(e: string)
  {
    exists a, b, c :: PlainRun(a) && PlainRun(b) && PlainRun(c) && e == a + "@" + b + "." + c
  }

  /** A '.' strictly inside `s`: neither its first nor its last character. */
  predicate HasInnerDot(s: string)
  {
    exists j :: 0 < j < |s| - 1 && s[j] == '.'
  }

  /** Direct test of the email shape: no whitespace, one '@' that is not the
      first character, and a '.' strictly inside the part after it. */
  predicate IsEmailShaped(e: string)
  {
    && (forall i :: 0 <= i < |e| ==> !IsSpace(e[i]))
    && match IndexOf(e, "@")
       case None => false
       case Some(i) =>
         && i > 0
         && (forall j :: i < j < |e| ==> e[j] != '@')
         && HasInnerDot(e[i + 1..])
  }

  /** The first '@' of an address built from a run without '@' sits right
      after that run. */
  lemma FirstAtAfterRun(a: string, rest: string)
    requires PlainRun(a)
    ensures IndexOf(a + "@" + rest, "@") == Some(|a|)
  {
    var e := a + "@" + rest;
    assert e[|a|..|a| + 1] == "@";
    forall k | 0 <= k < |a| ensures !OccursAt(e, "@", k) {
      assert e[k..k + 1] == [a[k]];
    }
    assert OccursAt(e, "@", |a|);
    var r := IndexOf(e, "@");
    assert r.Some?;
    assert !(r.value < |a|) && !(r.value > |a|);
  }

  /** Every address the direct test accepts matches the pattern. */
  lemma ShapedMatchesPattern(e: string)
    requires IsEmailShaped(e)
    ensures MatchesEmailPattern(e)
  {
    var i := IndexOf(e, "@").value;
    var j :| 0 < j < |e[i + 1..]| - 1 && e[i + 1..][j] == '.';
    var d := i + 1 + j;
    assert e[d] == '.';
    NoAtBeforeFirst(e, i);
    PlainSlice(e, 0, i);
    PlainSlice(e, i + 1, d);
    PlainSlice(e, d + 1, |e|);
    SplitAtTwo(e, i, d);
    var a, b, c := e[..i], e[i + 1..d], e[d + 1..];
    assert PlainRun(a) && PlainRun(b) && PlainRun(c) && e == a + "@" + b + "." + c;
  }

  /** An address cut around its '@' at `i` and a '.' at `d`. */
  lemma SplitAtTwo(e: string, i: nat, d: nat)
    requires i < d < |e| && e[i] == '@' && e[d] == '.'
    ensures e == e[..i] + "@" + e[i + 1..d] + "." + e[d + 1..]
  {
    assert e == e[..i] + [e[i]] + e[i + 1..d] + [e[d]] + e[d + 1..];
  }

  /** No character before the first '@' is an '@'. */
  lemma NoAtBeforeFirst(e: string, i: nat)
    requires IndexOf(e, "@") == Some(i)
    ensures forall k :: 0 <= k < i ==> e[k] != '@'
  {
    forall k | 0 <= k < i ensures e[k] != '@' {
      assert !OccursAt(e, "@", k);
      assert e[k..k + 1] == [e[k]];
    }
  }

  /** A non-empty slice without whitespace or '@' is a run of the pattern. */
  lemma PlainSlice(e: string, lo: nat, hi: nat)
    requires lo < hi <= |e|
    requires forall k :: lo <= k < hi ==> !IsSpace(e[k]) && e[k] != '@'
    ensures PlainRun(e[lo..hi])
  {
    assert forall k :: 0 <= k < hi - lo ==> e[lo..hi][k] == e[lo + k];
  }

  /** Every address the pattern matches passes the direct test. */
  lemma PatternIsShaped(a: string, b: string, c: string)
    requires PlainRun(a) && PlainRun(b) && PlainRun(c)
    ensures IsEmailShaped(a + "@" + b + "." + c)
  {
    var rest := b + "." + c;
    var e := a + "@" + rest;
    assert e == a + "@" + b + "." + c;
    FirstAtAfterRun(a, rest);
    assert e[|a| + 1..] == rest;
    assert rest[|b|] == '.';
    assert HasInnerDot(rest);
  }

  /** The direct test accepts exactly the addresses the pattern matches. */
  lemma EmailShapeIsPattern(e: string)
    ensures IsEmailShaped(e) <==> MatchesEmailPattern(e)
  {
    if IsEmailShaped(e) {
      ShapedMatchesPattern(e);
    }
    if MatchesEmailPattern(e) {
      var a, b, c :| PlainRun(a) && PlainRun(b) && PlainRun(c) && e == a + "@" + b + "." + c;
      PatternIsShaped(a, b, c);
    }
  }

  /** `validateForm`: the error message recorded for each field. */
  function ValidateForm(f: Form): (errs: map<Field, string>)
    ensures Phone !in errs && Category !in errs
  {
    ValidateFields(f.name, f.email, f.subject, f.message)
  }

  /** The checks of `validateForm`, given the four fields it reads. */
  function ValidateFields(name: string, email: string, subject: string, message: string): (errs: map<Field, string>)
    ensures Phone !in errs && Category !in errs
  {
    var e1 := if IsBlank(name) then map[Name := NameRequired] else map[];
    var e2 := if IsBlank(email) then e1[Email := EmailRequired]
              else if !IsEmailShaped(email) then e1[Email := EmailInvalid]
              else e1;
    var e3 := if IsBlank(subject) then e2[Subject := SubjectRequired] else e2;
    if IsBlank(message) then e3[Message := MessageRequired]
    else if |Trim(message)| < 10 then e3[Message := MessageTooShort]
    else e3
  }

  /** `validateForm()` returns true: no field has an error. */
  predicate IsValid(f: Form)
  {
    ValidateForm(f) == map[]
  }

  /** Per field, what `validateForm` reports: name and subject need a
      non-blank value; the email is required and then must have the
      local@domain.tld shape (checked on the untrimmed value); the message is
      required and then needs at least 10 characters after trimming. */
  lemma ValidateFormErrors(f: Form)
    ensures var errs := ValidateForm(f);
      && (Name in errs <==> IsBlank(f.name))
      && (Name in errs ==> errs[Name] == NameRequired)
      && (Subject in errs <==> IsBlank(f.subject))
      && (Subject in errs ==> errs[Subject] == SubjectRequired)
      && (Email in errs <==> IsBlank(f.email) || !MatchesEmailPattern(f.email))
      && (Email in errs ==> errs[Email] == if IsBlank(f.email) then EmailRequired else EmailInvalid)
      && (Message in errs <==> |Trim(f.message)| < 10)
      && (Message in errs ==> errs[Message] == if IsBlank(f.message) then MessageRequired else MessageTooShort)
  {
    FieldErrors(f.name, f.email, f.subject, f.message);
    EmailShapeIsPattern(f.email);
  }

  /** What `ValidateFields` records per field, with the email test in its
      direct form. */
  lemma FieldErrors(name: string, email: string, subject: string, message: string)
    ensures var errs := ValidateFields(name, email, subject, message);
      && (Name in errs <==> IsBlank(name))
      && (Name in errs ==> errs[Name] == NameRequired)
      && (Subject in errs <==> IsBlank(subject))
      && (Subject in errs ==> errs[Subject] == SubjectRequired)
      && (Email in errs <==> IsBlank(email) || !IsEmailShaped(email))
      && (Email in errs ==> errs[Email] == if IsBlank(email) then EmailRequired else EmailInvalid)
      && (Message in errs <==> |Trim(message)| < 10)
      && (Message in errs ==> errs[Message] == if IsBlank(message) then MessageRequired else MessageTooShort)
  {
  }

  /** The form is valid exactly when every checked field passes; phone and
      category play no part. */
  lemma ValidIffAllFieldsPass(f: Form)
    ensures IsValid(f) <==>
      && !IsBlank(f.name) && !IsBlank(f.subject)
      && !IsBlank(f.email) && MatchesEmailPattern(f.email)
      && |Trim(f.message)| >= 10
  {
    ValidateFormErrors(f);
    var errs := ValidateForm(f);
    if errs != map[] {
      var k :| k in errs;
    }
  }

  /** Phone and category are never validated: changing them leaves every
      error as it was. */
  lemma UncheckedFieldsIgnored(f: Form, k: Field, v: string)
    requires k == Phone || k == Category
    ensures ValidateForm(Set(f, k, v)) == ValidateForm(f)
  {
    var g := Set(f, k, v);
    assert g.name == f.name && g.email == f.email && g.subject == f.subject && g.message == f.message;
  }

  /** The page state kept across edits. */
  datatype PageState = PageState(form: Form, errors: map<Field, string>, loading: bool)

  /** `handleChange`: stores the new value of the named field and blanks that
      field's error if one is showing; nothing else changes. */
  function HandleChange(st: PageState, k: Field, v: string): (r: PageState)
    ensures Get(r.form, k) == v
    ensures forall k' :: k' != k ==> Get(r.form, k') == Get(st.form, k')
    ensures r.loading == st.loading
    ensures r.errors.Keys == st.errors.Keys
    ensures forall k' :: k' in st.errors && k' != k ==> r.errors[k'] == st.errors[k']
    ensures k in st.errors ==> r.errors[k] == ""
  {
    var errors := if k in st.errors && st.errors[k] != "" then st.errors[k := ""] else st.errors;
    PageState(Set(st.form, k, v), errors, st.loading)
  }

  /** Editing never adds an error message. */
  lemma HandleChangeAddsNoError(st: PageState, k: Field, v: string, k': Field)
    requires k' in HandleChange(st, k, v).errors && HandleChange(st, k, v).errors[k'] != ""
    ensures k' in st.errors && st.errors[k'] == HandleChange(st, k, v).errors[k']
  {
  }

  /** `handleSubmit` run to completion. `response` is the outcome of the
      POST, consulted only when the request is sent. Returns the new state
      and whether the request was sent. */
  function HandleSubmit(st: PageState, response: ApiOutcome): (r: (PageState, bool))
    ensures r.1 <==> IsValid(st.form)
    ensures r.0.errors == ValidateForm(st.form)
    ensures !r.1 ==> r.0.form == st.form
    ensures r.1 && response == Succeeded ==> r.0.form == Initial
    ensures r.1 && response == Failed ==> r.0.form == st.form
    ensures r.1 ==> !r.0.loading
  {
    var errors := ValidateForm(st.form);
    if errors != map[] then (PageState(st.form, errors, st.loading), false)
    else
      var form := if response == Succeeded then Initial else st.form;
      (PageState(form, errors, false), true)
  }

  /** An invalid form is never sent, whatever the backend would answer. */
  lemma InvalidNeverSent(st: PageState, response: ApiOutcome)
    requires IsBlank(st.form.name) || IsBlank(st.form.subject) || !MatchesEmailPattern(st.form.email)
             || |Trim(st.form.message)| < 10
    ensures !HandleSubmit(st, response).1
  {
    ValidIffAllFieldsPass(st.form);
  }

  /** After a successful submission every field is empty except the
      category, which is back to 'general'; the reset form is itself
      invalid, so a second click sends nothing. */
  lemma SuccessResetsForm(st: PageState)
    requires IsValid(st.form)
    ensures var r := HandleSubmit(st, Succeeded).0;
      && r.form.name == "" && r.form.email == "" && r.form.phone == ""
      && r.form.subject == "" && r.form.message == "" && r.form.category == "general"
      && !HandleSubmit(r, Succeeded).1
  {
    var r := HandleSubmit(st, Succeeded).0;
    assert IsBlank(r.form.name);
    ValidIffAllFieldsPass(r.form);
  }
}
