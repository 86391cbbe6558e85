/**
 * The contact form's validation rules: the form-id check, the schema's
 * trim-then-length rules with the issues they produce, and `getFieldErrors`,
 * which keeps the first message of each field.
 *
 * The email-format predicate of the schema library is a parameter `isEmail`.
 */
module Validations {
  import Strings
  import Wrappers

  datatype Field = Name | Email | Message

  /** One issue of a failed parse: the path into the input and its message. */
  datatype Issue = Issue(path: seq<Field>, message: string)

  /** The raw form values and, after a successful parse, the trimmed ones. */
  datatype ContactInput = ContactInput(name: string, email: string, message: string)

  datatype ParseResult = Success(data: ContactInput) | Failure(issues: seq<Issue>)

  const NameMax: nat := 100
  const MessageMax: nat := 5000

  const NameRequired: string := "お名前を入力してください"
  const NameTooLong: string := "お名前は100文字以内で入力してください"
  const EmailRequired: string := "メールアドレスを入力してください"
  const EmailInvalid: string := "正しいメールアドレスの形式で入力してください"
  const MessageRequired: string := "メッセージを入力してください"
  const MessageTooLong: string := "メッセージは5000文字以内で入力してください"

  // ---------------------------------------------------------------------------
  // Form id

  predicate IsAsciiAlnum(c: char) {
    ('a' <= c <= 'z') || ('A' <= c <= 'Z') || ('0' <= c <= '9')
  }

  /** `[a-zA-Z0-9]*` matched against the whole of `s`, left to right. */
  predicate AlnumRun(s: string)
    decreases |s|
  {
    s == [] || (IsAsciiAlnum(s[0]) && AlnumRun(s[1..]))
  }

  /** `formspreeIdSchema`: `^[a-zA-Z0-9]+$`. */
  predicate IsFormId(s: string) {
    |s| >= 1 && AlnumRun(s)
  }

  lemma {:induction false} AlnumRunIff(s: string)
    ensures AlnumRun(s) <==> forall i :: 0 <= i < |s| ==> IsAsciiAlnum(s[i])
    decreases |s|
  {
    if s != [] {
      AlnumRunIff(s[1..]);
      assert forall i :: 1 <= i < |s| ==> s[i] == s[1..][i - 1];
    }
  }

  /** An id is accepted exactly when it is non-empty and only letters and digits. */
  lemma FormIdIff(s: string)
    ensures IsFormId(s) <==> s != [] && forall i :: 0 <= i < |s| ==> IsAsciiAlnum(s[i])
  {
    AlnumRunIff(s);
  }

  lemma FormIdAccepted()
    ensures IsFormId("xyzAbC123")
  {
    FormIdIff("xyzAbC123");
  }

  lemma FormIdRejected()
    ensures !IsFormId("") && !IsFormId("abc-123") && !IsFormId("abc 123") && !IsFormId("abc/123")
  {
    FormIdIff("abc-123");
    assert "abc-123"[3] == '-';
    FormIdIff("abc 123");
    assert "abc 123"[3] == ' ';
    FormIdIff("abc/123");
    assert "abc/123"[3] == '/';
  }

  /** `getValidatedFormspreeId` on the value of the environment variable:
      unset, empty or malformed gives nothing, otherwise the id itself. */
  function ValidatedFormspreeId(env: Wrappers.Option<string>): (r: Wrappers.Option<string>)
    ensures r.Some? <==> env.Some? && IsFormId(env.value)
    ensures r.Some? ==> r == env
  {
    if env.None? || env.value == "" then Wrappers.None
    else if IsFormId(env.value) then env
    else Wrappers.None
  }

  // ---------------------------------------------------------------------------
  // Schema

  /** The issues of `name`: the trimmed value must have 1 to 100 characters. */
  function NameIssues(raw: string): (r: seq<Issue>)
    ensures r == [] <==> 1 <= |Strings.Trim(raw)| <= NameMax
    ensures forall i :: 0 <= i < |r| ==> r[i].path == [Name] && r[i].message != ""
  {
    var t := Strings.Trim(raw);
    (if |t| < 1 then [Issue([Name], NameRequired)] else []) +
    (if |t| > NameMax then [Issue([Name], NameTooLong)] else [])
  }

  /** The issues of `email`: the trimmed value must be non-empty and an email;
      an empty value fails both checks. */
  function EmailIssues(raw: string, isEmail: string -> bool): (r: seq<Issue>)
    ensures r == [] <==> |Strings.Trim(raw)| >= 1 && isEmail(Strings.Trim(raw))
    ensures forall i :: 0 <= i < |r| ==> r[i].path == [Email] && r[i].message != ""
    ensures |Strings.Trim(raw)| == 0 ==> r[0].message == EmailRequired
  {
    var t := Strings.Trim(raw);
    (if |t| < 1 then [Issue([Email], EmailRequired)] else []) +
    (if !isEmail(t) then [Issue([Email], EmailInvalid)] else [])
  }

  /** The issues of `message`: the trimmed value must have 1 to 5000 characters. */
  function MessageIssues(raw: string): (r: seq<Issue>)
    ensures r == [] <==> 1 <= |Strings.Trim(raw)| <= MessageMax
    ensures forall i :: 0 <= i < |r| ==> r[i].path == [Message] && r[i].message != ""
  {
    var t := Strings.Trim(raw);
    (if |t| < 1 then [Issue([Message], MessageRequired)] else []) +
    (if |t| > MessageMax then [Issue([Message], MessageTooLong)] else [])
  }

  predicate NameValid(raw: string) { 1 <= |Strings.Trim(raw)| <= NameMax }
  predicate EmailValid(raw: string, isEmail: string -> bool) {
    |Strings.Trim(raw)| >= 1 && isEmail(Strings.Trim(raw))
  }
  predicate MessageValid(raw: string) { 1 <= |Strings.Trim(raw)| <= MessageMax }

  predicate FieldValid(raw: ContactInput, isEmail: string -> bool, f: Field) {
    match f
    case Name => NameValid(raw.name)
    case Email => EmailValid(raw.email, isEmail)
    case Message => MessageValid(raw.message)
  }

  /** `contactFormSchema.safeParse`: the issues in field order, or the trimmed data. */
  function ParseContact(raw: ContactInput, isEmail: string -> bool): (r: ParseResult)
    ensures r.Success? <==> NameValid(raw.name) && EmailValid(raw.email, isEmail) && MessageValid(raw.message)
    ensures r.Success? ==> r.data == ContactInput(Strings.Trim(raw.name), Strings.Trim(raw.email), Strings.Trim(raw.message))
    ensures r.Failure? ==> |r.issues| > 0
    ensures r.Failure? ==> forall i :: 0 <= i < |r.issues| ==> |r.issues[i].path| == 1 && r.issues[i].message != ""
  {
    var issues := NameIssues(raw.name) + EmailIssues(raw.email, isEmail) + MessageIssues(raw.message);
    if issues == [] then
      Success(ContactInput(Strings.Trim(raw.name), Strings.Trim(raw.email), Strings.Trim(raw.message)))
    else
      Failure(issues)
  }

  /** A name of spaces only is rejected. */
  lemma BlankNameRejected(raw: ContactInput, isEmail: string -> bool)
    requires Strings.AllWhitespace(raw.name)
    ensures ParseContact(raw, isEmail).Failure?
  {
  }

  /** A failed field contributes at least one issue with its name at the head. */
  lemma FailedFieldHasIssue(raw: ContactInput, isEmail: string -> bool, f: Field)
    requires !FieldValid(raw, isEmail, f)
    ensures ParseContact(raw, isEmail).Failure?
    ensures exists i :: 0 <= i < |ParseContact(raw, isEmail).issues| && HeadIs(ParseContact(raw, isEmail).issues[i], f)
  {
    var n := NameIssues(raw.name);
    var e := EmailIssues(raw.email, isEmail);
    var m := MessageIssues(raw.message);
    var all := n + e + m;
    match f
    case Name => assert HeadIs(all[0], Name);
    case Email => assert HeadIs(all[|n|], Email);
    case Message => assert HeadIs(all[|n| + |e|], Message);
  }

  /** A valid field contributes no issue. */
  lemma ValidFieldHasNoIssue(raw: ContactInput, isEmail: string -> bool, f: Field)
    requires ParseContact(raw, isEmail).Failure?
    requires FieldValid(raw, isEmail, f)
    ensures forall i :: 0 <= i < |ParseContact(raw, isEmail).issues| ==> !HeadIs(ParseContact(raw, isEmail).issues[i], f)
  {
    var n := NameIssues(raw.name);
    var e := EmailIssues(raw.email, isEmail);
    var m := MessageIssues(raw.message);
    var all := n + e + m;
    forall i | 0 <= i < |all| ensures !HeadIs(all[i], f) {
      if i < |n| { assert all[i] == n[i]; }
      else if i < |n| + |e| { assert all[i] == e[i - |n|]; }
      else { assert all[i] == m[i - |n| - |e|]; }
    }
  }

  // ---------------------------------------------------------------------------
  // Field errors

  /** `issue.path[0]` is the field `f`. */
  predicate HeadIs(issue: Issue, f: Field) {
    |issue.path| > 0 && issue.path[0] == f
  }

  /** One iteration of `getFieldErrors`: a field is set when it has no entry or
      an empty one (both are falsy). */
  function Step(acc: map<Field, string>, issue: Issue): map<Field, string> {
    if |issue.path| > 0 && (issue.path[0] !in acc || acc[issue.path[0]] == "") then
      acc[issue.path[0] := issue.message]
    else
      acc
  }

  /** `getFieldErrors` on the issues, as a fold over their prefix. */
  function FieldErrorsOf(issues: seq<Issue>): map<Field, string>
    decreases |issues|
  {
    if issues == [] then map[] else Step(FieldErrorsOf(issues[..|issues| - 1]), issues[|issues| - 1])
  }

  /** `getFieldErrors`: the loop over the issues. */
  method GetFieldErrors(issues: seq<Issue>) returns (fieldErrors: map<Field, string>)
    ensures fieldErrors == FieldErrorsOf(issues)
    ensures forall f :: f in fieldErrors <==> exists i :: 0 <= i < |issues| && HeadIs(issues[i], f)
  {
    fieldErrors := map[];
    var i := 0;
    while i < |issues|
      invariant 0 <= i <= |issues|
      invariant fieldErrors == FieldErrorsOf(issues[..i])
    {
      assert issues[..i + 1][..i] == issues[..i];
      var issue := issues[i];
      if |issue.path| > 0 {
        var field := issue.path[0];
        if field !in fieldErrors || fieldErrors[field] == "" {
          fieldErrors := fieldErrors[field := issue.message];
        }
      }
      i := i + 1;
    }
    assert issues[..i] == issues;
    forall f ensures f in fieldErrors <==> exists i :: 0 <= i < |issues| && HeadIs(issues[i], f) {
      FieldErrorsKeys(issues, f);
    }
  }

  /** A field has an entry exactly when some issue names it. */
  lemma {:induction false} FieldErrorsKeys(issues: seq<Issue>, f: Field)
    ensures f in FieldErrorsOf(issues) <==> exists i :: 0 <= i < |issues| && HeadIs(issues[i], f)
    decreases |issues|
  {
    if issues != [] {
      var init := issues[..|issues| - 1];
      var last := issues[|issues| - 1];
      FieldErrorsKeys(init, f);
      if exists i :: 0 <= i < |init| && HeadIs(init[i], f) {
        var i :| 0 <= i < |init| && HeadIs(init[i], f);
        assert issues[i] == init[i];
      }
      if exists i :: 0 <= i < |issues| && HeadIs(issues[i], f) {
        var i :| 0 <= i < |issues| && HeadIs(issues[i], f);
        if i < |init| { assert init[i] == issues[i]; }
      }
    }
  }

  /** First error wins: when every message is non-empty, a field's entry is the
      message of the first issue that names it. */
  lemma {:induction false} FieldErrorsFirstWins(issues: seq<Issue>, f: Field, i: nat)
    requires forall k :: 0 <= k < |issues| ==> issues[k].message != ""
    requires i < |issues| && HeadIs(issues[i], f)
    requires forall j :: 0 <= j < i ==> !HeadIs(issues[j], f)
    ensures f in FieldErrorsOf(issues) && FieldErrorsOf(issues)[f] == issues[i].message
    decreases |issues|
  {
    var init := issues[..|issues| - 1];
    var last := issues[|issues| - 1];
    if i == |issues| - 1 {
      FieldErrorsKeys(init, f);
      assert forall j :: 0 <= j < |init| ==> init[j] == issues[j];
    } else {
      forall k | 0 <= k < |init| ensures init[k].message != "" { assert init[k] == issues[k]; }
      forall j | 0 <= j < i ensures !HeadIs(init[j], f) { assert init[j] == issues[j]; }
      assert init[i] == issues[i];
      FieldErrorsFirstWins(init, f, i);
    }
  }

  /** After a failed parse, the fields with an error are exactly the fields
      that fail their rule. */
  lemma ParseFieldErrors(raw: ContactInput, isEmail: string -> bool)
    requires ParseContact(raw, isEmail).Failure?
    ensures forall f :: f in FieldErrorsOf(ParseContact(raw, isEmail).issues) <==> !FieldValid(raw, isEmail, f)
  {
    var issues := ParseContact(raw, isEmail).issues;
    forall f ensures f in FieldErrorsOf(issues) <==> !FieldValid(raw, isEmail, f) {
      FieldErrorsKeys(issues, f);
      if FieldValid(raw, isEmail, f) {
        ValidFieldHasNoIssue(raw, isEmail, f);
      } else {
        FailedFieldHasIssue(raw, isEmail, f);
      }
    }
  }

  /** An empty trimmed value reports its "required" message, the first issue
      of its field. */
  lemma EmptyNameMessage(raw: ContactInput, isEmail: string -> bool)
    requires Strings.Trim(raw.name) == []
    ensures ParseContact(raw, isEmail).Failure?
    ensures Name in FieldErrorsOf(ParseContact(raw, isEmail).issues)
    ensures FieldErrorsOf(ParseContact(raw, isEmail).issues)[Name] == NameRequired
  {
    var all := ParseContact(raw, isEmail).issues;
    assert all[0] == Issue([Name], NameRequired);
    FieldErrorsFirstWins(all, Name, 0);
  }

  lemma EmptyEmailMessage(raw: ContactInput, isEmail: string -> bool)
    requires Strings.Trim(raw.email) == []
    ensures ParseContact(raw, isEmail).Failure?
    ensures Email in FieldErrorsOf(ParseContact(raw, isEmail).issues)
    ensures FieldErrorsOf(ParseContact(raw, isEmail).issues)[Email] == EmailRequired
  {
    var n := NameIssues(raw.name);
    var t := Strings.Trim(raw.email);
    var x := Issue([Email], EmailRequired);
    var tail := if !isEmail(t) then [Issue([Email], EmailInvalid)] else [];
    var m := MessageIssues(raw.message);
    assert EmailIssues(raw.email, isEmail) == [x] + tail;
    assert n + ([x] + tail) + m == n + [x] + (tail + m);
    FirstAfterPrefix(n, x, tail + m, Email);
  }

  /** The entry of `f` is the message of an issue naming `f` that follows only
      issues naming other fields. */
  lemma FirstAfterPrefix(pre: seq<Issue>, x: Issue, rest: seq<Issue>, f: Field)
    requires forall k :: 0 <= k < |pre + [x] + rest| ==> (pre + [x] + rest)[k].message != ""
    requires HeadIs(x, f) && forall j :: 0 <= j < |pre| ==> !HeadIs(pre[j], f)
    ensures f in FieldErrorsOf(pre + [x] + rest) && FieldErrorsOf(pre + [x] + rest)[f] == x.message
  {
    var all := pre + [x] + rest;
    assert all[|pre|] == x;
    forall j | 0 <= j < |pre| ensures !HeadIs(all[j], f) { assert all[j] == pre[j]; }
    FieldErrorsFirstWins(all, f, |pre|);
  }

  lemma EmptyMessageMessage(raw: ContactInput, isEmail: string -> bool)
    requires Strings.Trim(raw.message) == []
    ensures ParseContact(raw, isEmail).Failure?
    ensures Message in FieldErrorsOf(ParseContact(raw, isEmail).issues)
    ensures FieldErrorsOf(ParseContact(raw, isEmail).issues)[Message] == MessageRequired
  {
    var n := NameIssues(raw.name);
    var e := EmailIssues(raw.email, isEmail);
    var m := MessageIssues(raw.message);
    var all := ParseContact(raw, isEmail).issues;
    assert all == n + e + m;
    forall j | 0 <= j < |n| + |e| ensures !HeadIs(all[j], Message) {
      if j < |n| { assert all[j] == n[j]; } else { assert all[j] == e[j - |n|]; }
    }
    assert all[|n| + |e|] == m[0];
    FieldErrorsFirstWins(all, Message, |n| + |e|);
  }
}
