/**
 * `ContactForm` of the contact page: the four field validators, the error
 * display of each field, `validateAll`, the submit button across
 * `handleSubmit` and its simulated 1.5 s submission, and `resetForm`.
 *
 * Field values are the raw `element.value` strings. A field whose element is
 * missing from the page counts as valid, but the code that reads or clears
 * every field (`submitForm`, `resetForm`) fails on it, and the model keeps
 * those failures.
 */
module Contact {
  import opened Wrappers
  import opened Text
  import opened Notifications

  /** Position of each field in `Object.keys(this.fields)`. */
  const NameField: nat := 0
  const EmailField: nat := 1
  const SubjectField: nat := 2
  const MessageField: nat := 3
  const FieldCount: nat := 4

  /** The name validator: 2 to 50 UTF-16 code units once trimmed. */
  function NameError(value: string): (r: Option<string>)
    ensures r.None? <==> 2 <= Utf16Length(Trim(value)) <= 50
    ensures Utf16Length(Trim(value)) < 2 ==> r == Some("Name must be at least 2 characters")
    ensures Utf16Length(Trim(value)) > 50 ==> r == Some("Name must be less than 50 characters")
  {
    var n := Utf16Length(Trim(value));
    assert value == [] ==> n == 0;
    if value == [] || n < 2 then Some("Name must be at least 2 characters")
    else if n > 50 then Some("Name must be less than 50 characters")
    else None
  }

  /** Neither whitespace nor `@`: the class `[^\s@]`. */
  predicate Plain(s: string) {
    forall k :: 0 <= k < |s| ==> !IsWhitespace(s[k]) && s[k] != '@'
  }

  /**
   * `/^[^\s@]+@[^\s@]+\.[^\s@]+$/.test(s)`: some `@` at `i` and some `.` at
   * `j` split `s` into three non-empty runs of plain characters.
   */
  predicate EmailRegex(s: string) {
    exists i, j :: 0 < i && i + 1 < j && j + 1 < |s| && EmailSplit(s, i, j)
  }

  predicate EmailSplit(s: string, i: int, j: int)
    requires 0 < i && i + 1 < j && j + 1 < |s|
  {
    s[i] == '@' && s[j] == '.' && Plain(s[..i]) && Plain(s[i + 1..j]) && Plain(s[j + 1..])
  }

  /** A `.` with at least one character on each side. */
  predicate InnerDot(d: string) {
    exists p :: 0 < p < |d| - 1 && d[p] == '.'
  }

  /** The email validator: required, then the pattern; the value is not trimmed. */
  function EmailError(value: string): (r: Option<string>)
    ensures value == [] ==> r == Some("Email is required")
    ensures value != [] ==> (r.None? <==> EmailRegex(value))
    ensures value != [] && !EmailRegex(value) ==> r == Some("Please enter a valid email address")
  {
    if value == [] then Some("Email is required")
    else if !EmailRegex(value) then Some("Please enter a valid email address")
    else None
  }

  /** The plain-terms reading of the pattern, on the position `at` of the first `@`. */
  predicate EmailParts(s: string, at: nat)
    requires at < |s|
  {
    0 < at && Plain(s[..at]) && Plain(s[at + 1..]) && InnerDot(s[at + 1..])
  }

  /**
   * What the pattern accepts, in plain terms: the first `@` is preceded by a
   * non-empty run of plain characters, and what follows it contains neither
   * whitespace nor a second `@` and holds a `.` with a character on each side.
   */
  lemma EmailRegexMeaning(s: string)
    ensures EmailRegex(s) <==> IndexOf(s, '@').Some? && EmailParts(s, IndexOf(s, '@').value)
  {
    if EmailRegex(s) {
      RegexGivesParts(s);
    }
    if IndexOf(s, '@').Some? && EmailParts(s, IndexOf(s, '@').value) {
      PartsGiveRegex(s, IndexOf(s, '@').value);
    }
  }

  lemma RegexGivesParts(s: string)
    requires EmailRegex(s)
    ensures IndexOf(s, '@').Some? && EmailParts(s, IndexOf(s, '@').value)
  {
    var i, j :| 0 < i && i + 1 < j && j + 1 < |s| && EmailSplit(s, i, j);
    SplitGivesParts(s, i, j);
  }

  /** The `@` of a split is the first one, and the split gives the parts. */
  lemma SplitGivesParts(s: string, i: int, j: int)
    requires 0 < i && i + 1 < j && j + 1 < |s| && EmailSplit(s, i, j)
    ensures IndexOf(s, '@') == Some(i) && EmailParts(s, i)
  {
    FirstAt(s, i);
    var d := s[i + 1..];
    var p := j - i - 1;
    assert d[..p] == s[i + 1..j];
    assert d[p + 1..] == s[j + 1..];
    PlainAround(d, p);
  }

  /** An `@` after a plain run is the first one. */
  lemma FirstAt(s: string, i: nat)
    requires i < |s| && s[i] == '@' && Plain(s[..i])
    ensures IndexOf(s, '@') == Some(i)
  {
    assert forall k :: 0 <= k < i ==> s[k] == s[..i][k];
    var at := IndexOf(s, '@').value;
    assert at >= i;
    assert forall k :: 0 <= k < at ==> s[k] == s[..at][k];
  }

  /** A plain run around a `.` at `p` is plain, and holds an inner dot when both sides are non-empty. */
  lemma PlainAround(d: string, p: nat)
    requires p < |d| && d[p] == '.' && Plain(d[..p]) && Plain(d[p + 1..])
    ensures Plain(d)
    ensures 0 < p < |d| - 1 ==> InnerDot(d)
  {
    forall k | 0 <= k < |d| ensures !IsWhitespace(d[k]) && d[k] != '@' {
      if k < p {
        assert d[k] == d[..p][k];
      } else if k > p {
        assert d[k] == d[p + 1..][k - p - 1];
      }
    }
  }

  lemma PartsGiveRegex(s: string, at: nat)
    requires at < |s| && s[at] == '@' && EmailParts(s, at)
    ensures EmailRegex(s)
  {
    var d := s[at + 1..];
    var p :| 0 < p < |d| - 1 && d[p] == '.';
    var j := at + 1 + p;
    assert s[at + 1..j] == d[..p];
    assert s[j + 1..] == d[p + 1..];
    assert EmailSplit(s, at, j);
  }

  /** A well-formed address passes. */
  lemma EmailAccepted()
    ensures EmailError("ann@retro.shop").None?
  {
    var good := "ann@retro.shop";
    assert good[..3] == "ann" && good[4..] == "retro.shop";
    assert "retro.shop"[5] == '.';
    PartsGiveRegex(good, 3);
  }

  /** An address whose domain has no dot fails. */
  lemma EmailWithoutDot()
    ensures EmailError("ann@retro").Some?
  {
    var s := "ann@retro";
    assert '.' !in s;
  }

  /** The value is not trimmed: a leading blank fails. */
  lemma EmailLeadingBlank()
    ensures EmailError(" ann@retro.shop").Some?
  {
    EmailStartsPlain(" ann@retro.shop");
  }

  /** A second `@` fails. */
  lemma EmailTwoAts()
    ensures EmailError("a@b@c.de").Some?
  {
    var s := "a@b@c.de";
    EmailRegexMeaning(s);
    assert IndexOf(s, '@') == Some(1);
    assert s[2..][1] == '@';
  }

  /** The subject validator: a subject must be chosen. */
  function SubjectError(value: string): (r: Option<string>)
    ensures r.None? <==> value != []
    ensures r.Some? ==> r.value == "Please select a subject"
  {
    if value == [] then Some("Please select a subject") else None
  }

  /** The message validator: 10 to 1000 UTF-16 code units once trimmed. */
  function MessageError(value: string): (r: Option<string>)
    ensures r.None? <==> 10 <= Utf16Length(Trim(value)) <= 1000
    ensures Utf16Length(Trim(value)) < 10 ==> r == Some("Message must be at least 10 characters")
    ensures Utf16Length(Trim(value)) > 1000 ==> r == Some("Message must be less than 1000 characters")
  {
    var n := Utf16Length(Trim(value));
    assert value == [] ==> n == 0;
    if value == [] || n < 10 then Some("Message must be at least 10 characters")
    else if n > 1000 then Some("Message must be less than 1000 characters")
    else None
  }

  /** One character past U+FFFF is two code units, so it alone passes the name validator's minimum. */
  lemma AstralNameAccepted(c: char)
    requires c as int >= 0x1_0000 && !IsWhitespace(c)
    ensures NameError([c]).None?
  {
    TrimOfTrimmed([c]);
    assert [c][1..] == [];
    assert Utf16Length([c]) == 2;
  }

  /** For instance a single emoji. */
  lemma EmojiNameAccepted()
    ensures NameError("\U{1F600}").None?
  {
    AstralNameAccepted('\U{1F600}');
  }

  /** A name of one character from the Basic Multilingual Plane is too short. */
  lemma BmpNameTooShort(c: char)
    requires c as int < 0x1_0000
    ensures NameError([c]).Some?
  {
    assert Utf16Length([c]) <= 2 * |[c]|;
    if !IsWhitespace(c) {
      TrimOfTrimmed([c]);
      assert [c][1..] == [];
    }
  }

  /** `this.fields[k].validate(value)`. */
  function FieldError(k: nat, value: string): Option<string>
    requires k < FieldCount
  {
    if k == NameField then NameError(value)
    else if k == EmailField then EmailError(value)
    else if k == SubjectField then SubjectError(value)
    else MessageError(value)
  }

  /** An accepted address starts with a plain character. */
  lemma EmailStartsPlain(s: string)
    ensures EmailRegex(s) ==> s != [] && !IsWhitespace(s[0])
  {
    if EmailRegex(s) {
      var i, j :| 0 < i && i + 1 < j && j + 1 < |s| && EmailSplit(s, i, j);
      assert s[..i][0] == s[0];
    }
  }

  /** Blank input never validates a name, an email or a message (the subject is only checked for emptiness). */
  lemma BlankFieldsFail(k: nat, value: string)
    requires k < FieldCount && k != SubjectField && AllWhitespace(value)
    ensures FieldError(k, value).Some?
  {
    if k == EmailField && value != [] {
      EmailStartsPlain(value);
    }
  }

  /**
   * One field on the page: whether its input element and its error element
   * exist, the input's value, its `error` class, and the error element's text
   * and `visible` class.
   */
  datatype FieldState = FieldState(present: bool, hasErrorElement: bool, value: string,
                                   marked: bool, errorText: string, errorVisible: bool)

  /** `showFieldError`. */
  function WithError(f: FieldState, message: string): (g: FieldState)
    ensures g.marked && g.present == f.present && g.value == f.value && g.hasErrorElement == f.hasErrorElement
    ensures f.hasErrorElement ==> g.errorText == message && g.errorVisible
    ensures !f.hasErrorElement ==> g.errorText == f.errorText && g.errorVisible == f.errorVisible
  {
    if f.hasErrorElement then f.(marked := true, errorText := message, errorVisible := true)
    else f.(marked := true)
  }

  /** `clearFieldError`. */
  function Cleared(f: FieldState): (g: FieldState)
    ensures !g.marked && g.present == f.present && g.value == f.value && g.hasErrorElement == f.hasErrorElement
    ensures f.hasErrorElement ==> g.errorText == [] && !g.errorVisible
    ensures !f.hasErrorElement ==> g.errorText == f.errorText && g.errorVisible == f.errorVisible
  {
    if f.hasErrorElement then f.(marked := false, errorText := [], errorVisible := false)
    else f.(marked := false)
  }

  /** Whether `validateField` reports field `k` valid: a missing element counts as valid. */
  predicate Passes(f: FieldState, k: nat)
    requires k < FieldCount
  {
    !f.present || FieldError(k, f.value).None?
  }

  /**
   * The field after `validateField`: its error display shows exactly its own
   * validator's verdict, and a missing field is left as it is.
   */
  function Checked(f: FieldState, k: nat): (g: FieldState)
    requires k < FieldCount
    ensures g.present == f.present && g.value == f.value && g.hasErrorElement == f.hasErrorElement
    ensures !f.present ==> g == f
    ensures f.present ==> (g.marked <==> !Passes(f, k))
    ensures f.present && f.hasErrorElement ==> (g.errorVisible <==> !Passes(f, k))
    ensures f.present && f.hasErrorElement && !Passes(f, k) ==> g.errorText == FieldError(k, f.value).value
  {
    if !f.present then f
    else match FieldError(k, f.value)
      case Some(m) => WithError(f, m)
      case None => Cleared(f)
  }

  /** Validating a field twice is validating it once. */
  lemma CheckedIdempotent(f: FieldState, k: nat)
    requires k < FieldCount
    ensures Checked(Checked(f, k), k) == Checked(f, k)
  {
  }

  /** Index of the first field whose element is missing, or `FieldCount` if there is none. */
  function FirstMissing(fs: seq<FieldState>, from: nat): (m: nat)
    requires from <= |fs|
    ensures from <= m <= |fs|
    ensures forall k :: from <= k < m ==> fs[k].present
    ensures m < |fs| ==> !fs[m].present
    decreases |fs| - from
  {
    if from == |fs| then from
    else if !fs[from].present then from
    else FirstMissing(fs, from + 1)
  }

  /** What `form.reset()` does to a field: restores the markup's default value. */
  function ResetValue(f: FieldState, default: string): FieldState {
    if f.present then f.(value := default) else f
  }

  class ContactForm {
    /** The four fields, in the order name, email, subject, message. */
    const fields: array<FieldState>
    /** The `value` attributes of the four inputs in the markup. */
    const defaults: seq<string>
    const hasSubmitButton: bool
    const hasSuccessMessage: bool
    /** `submitBtn.disabled`. */
    var submitDisabled: bool
    /** Whether the button shows the SENDING... spinner rather than SEND MESSAGE. */
    var sending: bool
    /** The form's `display` is not `none`. */
    var formShown: bool
    /** `#formSuccess` has the `visible` class. */
    var successVisible: bool
    /** Simulated submissions (`submitForm` timers) not fired yet. */
    var pendingSubmissions: nat
    /** The `.contact-notification` messages appended to the page, oldest first. */
    var posted: seq<Notice>

    ghost predicate Valid()
      reads this
    {
      fields.Length == FieldCount && |defaults| == FieldCount
    }

    /** `new ContactForm()` on a page with the form: nothing is submitted or shown yet. */
    constructor (initial: seq<FieldState>, defaultValues: seq<string>, submitButton: bool, successMessage: bool)
      requires |initial| == FieldCount && |defaultValues| == FieldCount
      ensures Valid() && fresh(fields) && fields[..] == initial && defaults == defaultValues
      ensures hasSubmitButton == submitButton && hasSuccessMessage == successMessage
      ensures !submitDisabled && !sending && formShown && !successVisible
      ensures pendingSubmissions == 0 && posted == []
    {
      fields := new FieldState[FieldCount](k requires 0 <= k < FieldCount => initial[k]);
      defaults := defaultValues;
      hasSubmitButton, hasSuccessMessage := submitButton, successMessage;
      submitDisabled, sending, formShown, successVisible := false, false, true, false;
      pendingSubmissions, posted := 0, [];
    }

    /** `validateField(k)`: updates field `k`'s error display and reports whether it passes. */
    method ValidateField(k: nat) returns (ok: bool)
      requires Valid() && k < FieldCount
      modifies fields
      ensures ok == Passes(old(fields[k]), k)
      ensures fields[..] == old(fields[..])[k := Checked(old(fields[k]), k)]
    {
      var f := fields[k];
      if !f.present {
        return true;
      }
      var error := FieldError(k, f.value);
      if error.Some? {
        fields[k] := WithError(f, error.value);
        ok := false;
      } else {
        fields[k] := Cleared(f);
        ok := true;
      }
    }

    /**
     * `validateAll`: validates every field, without stopping at the first
     * failure, and reports whether all of them pass.
     */
    method ValidateAll() returns (ok: bool)
      requires Valid()
      modifies fields
      ensures ok <==> forall k :: 0 <= k < FieldCount ==> Passes(old(fields[k]), k)
      ensures forall k :: 0 <= k < FieldCount ==> fields[k] == Checked(old(fields[k]), k)
    {
      ok := true;
      var k := 0;
      while k < FieldCount
        invariant 0 <= k <= FieldCount
        invariant forall j :: 0 <= j < k ==> fields[j] == Checked(old(fields[j]), j)
        invariant forall j :: k <= j < FieldCount ==> fields[j] == old(fields[j])
        invariant ok <==> forall j :: 0 <= j < k ==> Passes(old(fields[j]), j)
      {
        var passed := ValidateField(k);
        if !passed {
          ok := false;
        }
        k := k + 1;
      }
    }

    /** The `blur` listener of field `k`. */
    method Blur(k: nat)
      requires Valid() && k < FieldCount && fields[k].present
      modifies fields
      ensures fields[..] == old(fields[..])[k := Checked(old(fields[k]), k)]
    {
      var _ := ValidateField(k);
    }

    /** Typing `v` into field `k`: the `input` listener clears its error. */
    method Input(k: nat, v: string)
      requires Valid() && k < FieldCount && fields[k].present
      modifies fields
      ensures fields[..] == old(fields[..])[k := Cleared(old(fields[k]).(value := v))]
    {
      fields[k] := Cleared(fields[k].(value := v));
    }

    /**
     * `handleSubmit`: disables the button and validates every field. On
     * failure the button is enabled again and one error message is posted;
     * on success the simulated submission starts and the button stays
     * disabled.
     */
    method HandleSubmit()
      requires Valid()
      modifies this, fields
      ensures Valid()
      ensures forall k :: 0 <= k < FieldCount ==> fields[k] == Checked(old(fields[k]), k)
      ensures var ok := forall k :: 0 <= k < FieldCount ==> Passes(old(fields[k]), k);
        && (!ok ==> posted == old(posted) + [Notice("Please fix the errors in the form", "error")]
                    && pendingSubmissions == old(pendingSubmissions)
                    && (hasSubmitButton ==> !submitDisabled && !sending))
        && (ok ==> posted == old(posted) && pendingSubmissions == old(pendingSubmissions) + 1
                   && (hasSubmitButton ==> submitDisabled && sending))
      ensures !hasSubmitButton ==> submitDisabled == old(submitDisabled) && sending == old(sending)
      ensures formShown == old(formShown) && successVisible == old(successVisible)
    {
      if hasSubmitButton {
        submitDisabled, sending := true, true;
      }
      var ok := ValidateAll();
      if !ok {
        if hasSubmitButton {
          submitDisabled, sending := false, false;
        }
        posted := posted + [Notice("Please fix the errors in the form", "error")];
        return;
      }
      pendingSubmissions := pendingSubmissions + 1;
    }

    /**
     * The 1.5 s timer of a simulated submission fires. It reads every field's
     * value, so with a field missing it fails and the submission never
     * completes; otherwise the form is swapped for the success message and a
     * success message is posted. The button is left as it is.
     */
    method SubmissionCompletes()
      requires Valid() && pendingSubmissions > 0
      modifies this
      ensures Valid()
      ensures pendingSubmissions == old(pendingSubmissions) - 1
      ensures var all := forall k :: 0 <= k < FieldCount ==> fields[k].present;
        && (all ==> !formShown && successVisible == (old(successVisible) || hasSuccessMessage)
                    && posted == old(posted) + [Notice("Message sent successfully!", "success")])
        && (!all ==> formShown == old(formShown) && successVisible == old(successVisible) && posted == old(posted))
      ensures submitDisabled == old(submitDisabled) && sending == old(sending)
    {
      pendingSubmissions := pendingSubmissions - 1;
      if FirstMissing(fields[..], 0) < FieldCount {
        return;
      }
      formShown := false;
      if hasSuccessMessage {
        successVisible := true;
      }
      posted := posted + [Notice("Message sent successfully!", "success")];
    }

    /**
     * `resetForm` (the "send another message" button): restores the default
     * values, shows the form, hides the success message, then clears the
     * errors field by field and re-enables the button. Clearing a missing
     * field fails, which stops the rest.
     */
    method ResetForm()
      requires Valid()
      modifies this, fields
      ensures Valid()
      ensures formShown && successVisible == (old(successVisible) && !hasSuccessMessage)
      ensures var m := FirstMissing(old(fields[..]), 0);
        && (forall k :: 0 <= k < m ==> fields[k] == Cleared(ResetValue(old(fields[k]), defaults[k])))
        && (forall k :: m <= k < FieldCount ==> fields[k] == ResetValue(old(fields[k]), defaults[k]))
        && (m == FieldCount && hasSubmitButton ==> !submitDisabled && !sending)
        && (m < FieldCount || !hasSubmitButton ==> submitDisabled == old(submitDisabled) && sending == old(sending))
      ensures posted == old(posted) && pendingSubmissions == old(pendingSubmissions)
    {
      formShown := true;
      if hasSuccessMessage {
        successVisible := false;
      }
      ResetValues();
      var finished := ClearErrors();
      if finished && hasSubmitButton {
        submitDisabled, sending := false, false;
      }
    }

    /** `this.form.reset()`: every present field gets its default value back. */
    method ResetValues()
      requires Valid()
      modifies fields
      ensures forall j :: 0 <= j < FieldCount ==> fields[j] == ResetValue(old(fields[j]), defaults[j])
    {
      var k := 0;
      while k < FieldCount
        invariant 0 <= k <= FieldCount
        invariant forall j :: 0 <= j < k ==> fields[j] == ResetValue(old(fields[j]), defaults[j])
        invariant forall j :: k <= j < FieldCount ==> fields[j] == old(fields[j])
      {
        fields[k] := ResetValue(fields[k], defaults[k]);
        k := k + 1;
      }
    }

    /**
     * `clearFieldError` on each field in turn, which throws at the first
     * field without an element; `finished` tells whether the loop got through.
     */
    method ClearErrors() returns (finished: bool)
      requires Valid()
      modifies fields
      ensures var m := FirstMissing(old(fields[..]), 0);
        && finished == (m == FieldCount)
        && (forall j :: 0 <= j < m ==> fields[j] == Cleared(old(fields[j])))
        && (forall j :: m <= j < FieldCount ==> fields[j] == old(fields[j]))
    {
      ghost var m := FirstMissing(fields[..], 0);
      var k := 0;
      while k < FieldCount
        invariant 0 <= k <= m
        invariant forall j :: 0 <= j < k ==> fields[j] == Cleared(old(fields[j]))
        invariant forall j :: k <= j < FieldCount ==> fields[j] == old(fields[j])
      {
        if !fields[k].present {
          return false;
        }
        fields[k] := Cleared(fields[k]);
        k := k + 1;
      }
      return true;
    }
  }
}
