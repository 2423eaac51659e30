// Form validation and notification icons of the EHS front end
// (js/utils/util.js): each input's trimmed value is checked for presence
// (required fields), e-mail shape (email inputs) and date validity (date
// inputs); the result is an overall flag and a map from field name to the
// last message recorded for it.

module FormValidation {
  import opened JsText

  /** One `input`, `select` or `textarea` of a form. `dateParses` stands for
    * `!isNaN(new Date(value).getTime())`, the browser's date parser. */
  datatype Field = Field(name: string, id: string, required: bool, kind: string,
                         value: string, dateParses: bool)

  /** `input.name || input.id`. */
  function FieldName(f: Field): string
  {
    if f.name != "" then f.name else f.id
  }

  /** No white space and no '@' (the class `[^\s@]`), scanned from the left. */
  predicate Clean(s: string)
  {
    s == [] || (!IsSpace(s[0]) && s[0] != '@' && Clean(s[1..]))
  }

  lemma {:induction false} CleanAt(s: string)
    ensures Clean(s) <==> forall i :: 0 <= i < |s| ==> !IsSpace(s[i]) && s[i] != '@'
  {
    if s != [] {
      CleanAt(s[1..]);
      assert forall i :: 1 <= i < |s| ==> s[i] == s[1..][i - 1];
    }
  }

  lemma {:induction false} CleanConcat(a: string, b: string)
    ensures Clean(a + b) <==> Clean(a) && Clean(b)
  {
    if a != [] {
      assert (a + b)[1..] == a[1..] + b;
      CleanConcat(a[1..], b);
    } else {
      assert a + b == b;
    }
  }

  /** `s` is `a@b.c` with each part non-empty and clean. */
  ghost predicate EmailParts(s: string, a: string, b: string, c: string)
  {
    a != [] && b != [] && c != [] && Clean(a) && Clean(b) && Clean(c) &&
    s == a + "@" + b + "." + c
  }

  /** The language of `/^[^\s@]+@[^\s@]+\.[^\s@]+$/`. */
  ghost predicate MatchesEmailPattern(s: string)
  {
    exists a: string, b: string, c: string :: EmailParts(s, a, b, c)
  }

  /** The domain half: clean text with a '.' that has text on both sides. */
  predicate DomainOk(d: string)
  {
    Clean(d) && |d| >= 3 && '.' in d[1..|d| - 1]
  }

  /** `isValidEmail(value)`, decided by scanning: clean, non-empty text
    * before the first '@', and a well-formed domain after it. */
  function IsValidEmail(s: string): bool
  {
    var at := IndexOf(s, '@');
    at > 0 && Clean(s[..at]) && DomainOk(s[at + 1..])
  }

  /** The scanning test decides exactly the regular expression. */
  lemma IsValidEmailMatchesPattern(s: string)
    ensures IsValidEmail(s) <==> MatchesEmailPattern(s)
  {
    if IsValidEmail(s) {
      var a, b, c := ValidEmailSplits(s);
    }
    if MatchesEmailPattern(s) {
      var a, b, c :| EmailParts(s, a, b, c);
      PatternScans(s, a, b, c);
    }
  }

  /** Both sides of a character of a clean string are clean. */
  lemma CleanSides(d: string, k: nat)
    requires Clean(d) && k < |d|
    ensures Clean(d[..k]) && Clean(d[k + 1..])
  {
    assert d == d[..k] + d[k..];
    CleanConcat(d[..k], d[k..]);
    assert d[k..] == [d[k]] + d[k + 1..];
    CleanConcat([d[k]], d[k + 1..]);
  }

  /** A well-formed domain is `b.c` with both parts non-empty and clean. */
  lemma DomainSplits(d: string) returns (b: string, c: string)
    requires DomainOk(d)
    ensures b != [] && c != [] && Clean(b) && Clean(c) && d == b + "." + c
  {
    var inner := d[1..|d| - 1];
    var p :| 0 <= p < |inner| && inner[p] == '.';
    var k := p + 1;
    CleanSides(d, k);
    b, c := d[..k], d[k + 1..];
    assert d == d[..k] + [d[k]] + d[k + 1..];
  }

  lemma DomainOfParts(b: string, c: string)
    requires b != [] && c != [] && Clean(b) && Clean(c)
    ensures DomainOk(b + "." + c)
  {
    CleanJoin(b, c);
    DotInside(b, c);
  }

  lemma CleanJoin(b: string, c: string)
    requires Clean(b) && Clean(c)
    ensures Clean(b + "." + c)
  {
    assert Clean(".");
    CleanConcat(b, ".");
    CleanConcat(b + ".", c);
  }

  /** The '.' joining two non-empty parts is neither first nor last. */
  lemma DotInside(b: string, c: string)
    requires b != [] && c != []
    ensures var d := b + "." + c; |d| >= 3 && '.' in d[1..|d| - 1]
  {
    var d := b + "." + c;
    var inner := d[1..|d| - 1];
    assert inner[|b| - 1] == d[|b|] == '.';
  }

  lemma ValidEmailSplits(s: string) returns (a: string, b: string, c: string)
    requires IsValidEmail(s)
    ensures EmailParts(s, a, b, c)
  {
    var at := IndexOf(s, '@');
    var d := s[at + 1..];
    b, c := DomainSplits(d);
    a := s[..at];
    assert s == a + [s[at]] + d;
  }

  /** The e-mail test holds when `at` is an '@' with clean text before it and
    * a well-formed domain after it: that '@' is then the first one. */
  lemma ValidEmailAt(s: string, at: nat)
    requires 0 < at < |s| && s[at] == '@' && Clean(s[..at]) && DomainOk(s[at + 1..])
    ensures IsValidEmail(s)
  {
    CleanAt(s[..at]);
    IndexOfFirst(s, '@', at);
  }

  lemma PatternScans(s: string, a: string, b: string, c: string)
    requires EmailParts(s, a, b, c)
    ensures IsValidEmail(s)
  {
    var d := b + "." + c;
    assert s == a + "@" + d;
    assert s[..|a|] == a;
    assert s[|a| + 1..] == d;
    DomainOfParts(b, c);
    ValidEmailAt(s, |a|);
  }

  /** The message one field contributes, if any. */
  function FieldError(f: Field): (m: Option<string>)
  {
    var value := Trim(f.value);
    if f.required && value == "" then Some("This field is required")
    else if f.kind == "email" && value != "" && !IsValidEmail(value) then Some("Please enter a valid email address")
    else if f.kind == "date" && value != "" && !f.dateParses then Some("Please enter a valid date")
    else None
  }

  /** A blank value gets the 'required' message exactly when the field is
    * required, and no other message. */
  lemma FieldErrorWhenBlank(f: Field)
    requires Blank(f.value)
    ensures f.required ==> FieldError(f) == Some("This field is required")
    ensures !f.required ==> FieldError(f).None?
  {
    TrimEmptyIffBlank(f.value);
  }

  /** A value with some non-space character gets the e-mail message when it
    * is an e-mail input failing the e-mail test, the date message when it
    * is a date input the date parser rejects, and otherwise none. */
  lemma FieldErrorWhenFilled(f: Field)
    requires !Blank(f.value)
    ensures f.kind == "email" ==>
      (FieldError(f).Some? <==> !IsValidEmail(Trim(f.value)))
    ensures f.kind == "email" && FieldError(f).Some? ==>
      FieldError(f).value == "Please enter a valid email address"
    ensures f.kind == "date" ==> (FieldError(f).Some? <==> !f.dateParses)
    ensures f.kind == "date" && FieldError(f).Some? ==>
      FieldError(f).value == "Please enter a valid date"
    ensures f.kind != "email" && f.kind != "date" ==> FieldError(f).None?
  {
    TrimEmptyIffBlank(f.value);
  }

  /** The `errors` object after the fields in order: a later field with the
    * same name overwrites an earlier message. */
  function ErrorsOf(fields: seq<Field>): map<string, string>
  {
    if fields == [] then map[]
    else
      var rest := ErrorsOf(fields[..|fields| - 1]);
      var f := fields[|fields| - 1];
      match FieldError(f)
      case None => rest
      case Some(m) => rest[FieldName(f) := m]
  }

  /** The message of the last failing field called `name`, scanning from
    * the end. */
  function LastError(fields: seq<Field>, name: string): Option<string>
  {
    if fields == [] then None
    else
      var f := fields[|fields| - 1];
      if FieldName(f) == name && FieldError(f).Some? then FieldError(f)
      else LastError(fields[..|fields| - 1], name)
  }

  /** Each name's entry in the error map is the message of the last field of
    * that name that failed, and there is none when no such field failed. */
  lemma {:induction false} ErrorsOfByName(fields: seq<Field>, name: string)
    ensures name in ErrorsOf(fields) <==> LastError(fields, name).Some?
    ensures name in ErrorsOf(fields) ==> ErrorsOf(fields)[name] == LastError(fields, name).value
    decreases |fields|
  {
    if fields != [] {
      ErrorsOfByName(fields[..|fields| - 1], name);
    }
  }

  /** A failing field leaves a message under its name. */
  lemma {:induction false} FailingFieldRecorded(fields: seq<Field>, i: nat)
    requires i < |fields| && FieldError(fields[i]).Some?
    ensures LastError(fields, FieldName(fields[i])).Some?
    decreases |fields|
  {
    if i < |fields| - 1 {
      var init := fields[..|fields| - 1];
      assert init[i] == fields[i];
      FailingFieldRecorded(init, i);
    }
  }

  /** The overall flag is set exactly when no field failed. */
  predicate AllValid(fields: seq<Field>)
  {
    forall i :: 0 <= i < |fields| ==> FieldError(fields[i]).None?
  }

  /** The form is valid exactly when the error map is empty. */
  lemma ValidIffNoErrors(fields: seq<Field>)
    ensures AllValid(fields) <==> ErrorsOf(fields) == map[]
  {
    if !AllValid(fields) {
      var i :| 0 <= i < |fields| && FieldError(fields[i]).Some?;
      FailingFieldRecorded(fields, i);
      ErrorsOfByName(fields, FieldName(fields[i]));
    } else {
      ErrorsOfEmpty(fields);
    }
  }

  lemma {:induction false} ErrorsOfEmpty(fields: seq<Field>)
    requires AllValid(fields)
    ensures ErrorsOf(fields) == map[]
    decreases |fields|
  {
    if fields != [] {
      var init := fields[..|fields| - 1];
      assert forall i :: 0 <= i < |init| ==> init[i] == fields[i];
      ErrorsOfEmpty(init);
    }
  }

  lemma StepErrors(fields: seq<Field>, i: nat)
    requires i < |fields|
    ensures ErrorsOf(fields[..i + 1]) ==
      match FieldError(fields[i])
      case None => ErrorsOf(fields[..i])
      case Some(m) => ErrorsOf(fields[..i])[FieldName(fields[i]) := m]
  {
    assert fields[..i + 1][..i] == fields[..i];
    assert fields[..i + 1][i] == fields[i];
  }

  lemma StepValid(fields: seq<Field>, i: nat)
    requires i < |fields|
    ensures AllValid(fields[..i + 1]) == (AllValid(fields[..i]) && FieldError(fields[i]).None?)
  {
    var pre, next := fields[..i], fields[..i + 1];
    assert forall j :: 0 <= j < i ==> next[j] == pre[j];
    assert next[i] == fields[i];
  }

  /** The `forEach` callback of `validateForm` for one input: the checks in
    * source order, each recording its message under the field's name. */
  method CheckField(f: Field, before: map<string, string>) returns (ok: bool, errors: map<string, string>)
    ensures ok == FieldError(f).None?
    ensures errors == match FieldError(f) case None => before case Some(m) => before[FieldName(f) := m]
  {
    ok := true;
    errors := before;
    var value := Trim(f.value);
    var fieldName := if f.name != "" then f.name else f.id;
    if f.required && value == "" {
      ok := false;
      errors := errors[fieldName := "This field is required"];
    }
    if f.kind == "email" && value != "" && !IsValidEmail(value) {
      ok := false;
      errors := errors[fieldName := "Please enter a valid email address"];
    }
    if f.kind == "date" && value != "" && !f.dateParses {
      ok := false;
      errors := errors[fieldName := "Please enter a valid date"];
    }
  }

  /** `validateForm(form)`: visits the fields in document order. */
  method ValidateForm(fields: seq<Field>) returns (isValid: bool, errors: map<string, string>)
    ensures isValid == AllValid(fields)
    ensures errors == ErrorsOf(fields)
  {
    isValid := true;
    errors := map[];
    var i := 0;
    while i < |fields|
      invariant 0 <= i <= |fields|
      invariant isValid == AllValid(fields[..i])
      invariant errors == ErrorsOf(fields[..i])
    {
      StepErrors(fields, i);
      StepValid(fields, i);
      var ok;
      ok, errors := CheckField(fields[i], errors);
      isValid := isValid && ok;
      i := i + 1;
    }
    assert fields[..|fields|] == fields;
  }

  /** The notification kinds with an icon of their own. */
  datatype Icon = Glyph(c: char) | InheritedMember

  /** `Notification.getIcon(type)`: an unknown type gets the info icon; a
    * name inherited from `Object.prototype` yields that member instead. */
  function GetIcon(kind: string): (r: Icon)
    ensures kind == "success" ==> r == Glyph('✓')
    ensures kind == "error" ==> r == Glyph('✕')
    ensures kind == "warning" ==> r == Glyph('⚠')
    ensures PrototypeMember(kind) ==> r == InheritedMember
    ensures kind !in {"success", "error", "warning"} && !PrototypeMember(kind) ==> r == Glyph('ℹ')
  {
    if kind == "success" then Glyph('✓')
    else if kind == "error" then Glyph('✕')
    else if kind == "warning" then Glyph('⚠')
    else if kind == "info" then Glyph('ℹ')
    else if PrototypeMember(kind) then InheritedMember
    else Glyph('ℹ')
  }
}
