/**
 * The contact form of js/main.js (`initContactForm`): three pure validators,
 * the blur and input handlers, and the submit decision. The DOM is abstracted:
 * each input with its error region is a `Field` record, the form is the
 * sequence of its fields in document order, and focus is an index into it.
 */
module ContactForm {
  import opened Wrappers
  import opened Text

  const NameRequired := "Please enter your name."
  const NameTooShort := "Name must be at least 2 characters."
  const EmailRequired := "Please enter your email address."
  const EmailInvalid := "Please enter a valid email address."
  const MessageRequired := "Please enter a message."
  const MessageTooShort := "Message must be at least 10 characters."
  const SendingLabel := "Sending…"

  /** The shape shared by the name and message validators: `missing` when the
      trimmed value is empty, `short` when it is shorter than `min`, else "". */
  function ValidateLength(val: string, missing: string, short: string, min: nat): (r: string)
    requires missing != "" && short != "" && missing != short && min >= 1
    ensures r == missing <==> AllSpace(val)
    ensures r == short <==> !AllSpace(val) && !SpansAtLeast(val, min)
    ensures r == "" <==> SpansAtLeast(val, min)
    ensures r in {missing, short, ""}
  {
    TrimEmptyIffAllSpace(val);
    TrimLengthAtLeast(val, min);
    if Trim(val) == [] then missing
    else if Utf16Length(Trim(val)) < min then short
    else ""
  }

  /** `validators.name.validate`. */
  function ValidateName(val: string): (r: string)
    ensures r == NameRequired <==> AllSpace(val)
    ensures r == NameTooShort <==> !AllSpace(val) && !SpansAtLeast(val, 2)
    ensures r == "" <==> SpansAtLeast(val, 2)
  {
    ValidateLength(val, NameRequired, NameTooShort, 2)
  }

  /** `validators.message.validate`. */
  function ValidateMessage(val: string): (r: string)
    ensures r == MessageRequired <==> AllSpace(val)
    ensures r == MessageTooShort <==> !AllSpace(val) && !SpansAtLeast(val, 10)
    ensures r == "" <==> SpansAtLeast(val, 10)
  {
    ValidateLength(val, MessageRequired, MessageTooShort, 10)
  }

  /** No character of `s` is whitespace or '@': the class `[^\s@]`. */
  predicate NoSpaceOrAt(s: string) {
    forall k :: 0 <= k < |s| ==> !IsSpace(s[k]) && s[k] != '@'
  }

  /** The whole of `d` matches `[^\s@]+\.[^\s@]+`: no whitespace and no '@',
      and a '.' with at least one character on each side. */
  ghost predicate DomainShaped(d: string) {
    NoSpaceOrAt(d) && exists k :: 0 < k < |d| - 1 && d[k] == '.'
  }

  /** The whole of `s` matches `^[^\s@]+@[^\s@]+\.[^\s@]+$`: a non-empty local
      part without whitespace or '@', then '@', then a domain as above. */
  ghost predicate EmailShaped(s: string) {
    exists a :: 0 < a < |s| && s[a] == '@' && NoSpaceOrAt(s[..a]) && DomainShaped(s[a + 1..])
  }

  /** An executable test of the email pattern: split at the first '@' and check
      both sides. It accepts exactly the strings the pattern matches. */
  function EmailMatch(s: string): (r: bool)
    ensures r <==> EmailShaped(s)
  {
    ShapedSplitsAtFirstAt(s);
    match IndexOf(s, '@')
    case None => false
    case Some(a) =>
      SplitIsShaped(s, a);
      && 0 < a && NoSpaceOrAt(s[..a])
      && NoSpaceOrAt(s[a + 1..])
      && a + 4 <= |s| && '.' in s[a + 2..|s| - 1]
  }

  /** What the scanner accepts at an '@', the regular expression matches. */
  lemma SplitIsShaped(s: string, a: nat)
    requires a < |s| && s[a] == '@'
    ensures (&& 0 < a && NoSpaceOrAt(s[..a])
             && NoSpaceOrAt(s[a + 1..])
             && a + 4 <= |s| && '.' in s[a + 2..|s| - 1]) ==> EmailShaped(s)
  {
    if 0 < a && NoSpaceOrAt(s[..a]) && NoSpaceOrAt(s[a + 1..]) && a + 4 <= |s| && '.' in s[a + 2..|s| - 1] {
      var d := s[a + 1..];
      var inner := s[a + 2..|s| - 1];
      var k :| 0 <= k < |inner| && inner[k] == '.';
      assert d[k + 1] == inner[k];
      assert DomainShaped(d);
    }
  }

  /** What the regular expression matches, the scanner accepts: the '@' after
      the local part is the first one, and both sides pass the scanner's tests. */
  lemma ShapedSplitsAtFirstAt(s: string)
    ensures EmailShaped(s) ==>
      && IndexOf(s, '@').Some?
      && var a := IndexOf(s, '@').value;
         && 0 < a && NoSpaceOrAt(s[..a])
         && NoSpaceOrAt(s[a + 1..])
         && a + 4 <= |s| && '.' in s[a + 2..|s| - 1]
  {
    if EmailShaped(s) {
      var a :| 0 < a < |s| && s[a] == '@' && NoSpaceOrAt(s[..a]) && DomainShaped(s[a + 1..]);
      var d := s[a + 1..];
      var k :| 0 < k < |d| - 1 && d[k] == '.';
      var i := IndexOf(s, '@');
      forall j | 0 <= j < a ensures s[j] != '@' {
        assert s[j] == s[..a][j];
      }
      assert i.value == a;
      assert s[a + 2..|s| - 1][k - 1] == d[k];
    }
  }

  /** `validators.email.validate`: the emptiness check looks at the trimmed
      value, the pattern at the value as typed. */
  function ValidateEmail(val: string): (r: string)
    ensures r == EmailRequired <==> AllSpace(val)
    ensures r == EmailInvalid <==> !AllSpace(val) && !EmailShaped(val)
    ensures r == "" <==> EmailShaped(val)
  {
    TrimEmptyIffAllSpace(val);
    if Trim(val) == [] then EmailRequired
    else if !EmailMatch(val) then EmailInvalid
    else ""
  }

  /** Examples of the name validator. */
  lemma NameExamples()
    ensures ValidateName("") == NameRequired
    ensures ValidateName("A") == NameTooShort
    ensures ValidateName("Amy") == ""
  {
    assert "A"[0] == 'A' && "A"[0..0 + 1] == "A" && "A"[1..] == [];
    assert !SpansAtLeast("A", 2);
    assert "Amy"[0] == 'A' && "Amy"[2] == 'y' && !IsSpace('A') && !IsSpace('y');
  }

  /** A character above U+FFFF, such as the emoji U+1F600, is two UTF-16
      units, so on its own it is a long enough name. */
  lemma EmojiName()
    ensures ValidateName("\U{1F600}") == ""
  {
    var e := "\U{1F600}";
    assert e[0] == '\U{1F600}' && !IsSpace(e[0]) && Utf16Width(e[0]) == 2;
    assert e[0..0 + 1] == e && e[1..] == [];
    assert Utf16Length(e) == 2;
    assert SpansAtLeast(e, 2);
  }

  /** Examples of the email validator. */
  lemma EmailExamples()
    ensures ValidateEmail("bad") == EmailInvalid
    ensures ValidateEmail("a@b.c") == ""
  {
    assert "bad"[0] == 'b' && !IsSpace('b');
    assert !EmailShaped("bad");
    var e := "a@b.c";
    assert e[1] == '@' && NoSpaceOrAt(e[..1]) && e[2..][1] == '.' && DomainShaped(e[2..]);
  }

  /** Examples of the message validator. Five U+1F600 emoji are ten UTF-16
      units. */
  lemma MessageExamples()
    ensures ValidateMessage("hi") == MessageTooShort
    ensures ValidateMessage("hello there!") == ""
    ensures ValidateMessage("\U{1F600}\U{1F600}\U{1F600}\U{1F600}\U{1F600}") == ""
  {
    assert "hi"[0] == 'h' && !IsSpace('h');
    assert !SpansAtLeast("hi", 10);
    assert "hello there!"[0] == 'h' && "hello there!"[11] == '!' && !IsSpace('!');
    assert "hello there!"[0..11 + 1] == "hello there!";
    var f := "\U{1F600}\U{1F600}\U{1F600}\U{1F600}\U{1F600}";
    assert forall k :: 0 <= k < 5 ==> f[k] == '\U{1F600}';
    assert !IsSpace('\U{1F600}') && Utf16Width('\U{1F600}') == 2;
    assert f[0..4 + 1] == f;
    assert Utf16Length(f[4..]) == 2;
    assert Utf16Length(f[3..]) == 4;
    assert Utf16Length(f[2..]) == 6;
    assert Utf16Length(f[1..]) == 8;
    assert Utf16Length(f) == 10;
    assert SpansAtLeast(f, 10);
  }

  /** A value with leading or trailing whitespace never passes the email
      check, because the pattern is tested against the untrimmed value. */
  lemma EmailRejectsOuterSpace(val: string)
    requires val != [] && (IsSpace(val[0]) || IsSpace(val[|val| - 1]))
    ensures ValidateEmail(val) != ""
  {
    if EmailShaped(val) {
      EmailEnds(val);
    }
  }

  /** A matching value starts and ends with a character that is not whitespace. */
  lemma EmailEnds(s: string)
    requires EmailShaped(s)
    ensures !IsSpace(s[0]) && !IsSpace(s[|s| - 1])
  {
    var a :| 0 < a < |s| && s[a] == '@' && NoSpaceOrAt(s[..a]) && DomainShaped(s[a + 1..]);
    assert s[0] == s[..a][0];
    assert s[|s| - 1] == s[a + 1..][|s| - a - 2];
  }

  datatype FieldKind = Name | Email | Message

  /** The validator `validators[kind].validate`. */
  function Validate(kind: FieldKind, val: string): string {
    match kind
    case Name => ValidateName(val)
    case Email => ValidateEmail(val)
    case Message => ValidateMessage(val)
  }

  /** One input of the form: its current value, the text of its error region
      and whether it carries the `is-invalid` class. */
  datatype Field = Field(kind: FieldKind, value: string, errorText: string, invalid: bool)

  /** What the blur handler leaves: the error text is the validator's message
      and the flag is set exactly when that message is non-empty. */
  function Revalidated(f: Field): (r: Field)
    ensures r.kind == f.kind && r.value == f.value
    ensures r.errorText == Validate(f.kind, f.value)
    ensures r.invalid <==> r.errorText != ""
    ensures Coherent(r)
  {
    var msg := Validate(f.kind, f.value);
    f.(errorText := msg, invalid := msg != "")
  }

  /** The flag agrees with the error text, and a flagged field shows the
      message its current value produces. */
  predicate Coherent(f: Field) {
    && (f.invalid <==> f.errorText != "")
    && (f.invalid ==> f.errorText == Validate(f.kind, f.value))
  }

  /** `form.querySelector('.is-invalid')`: the first flagged field in form order. */
  function FirstInvalid(fs: seq<Field>): (r: Option<nat>)
    ensures r.Some? ==> r.value < |fs| && fs[r.value].invalid
    ensures r.Some? ==> forall j :: 0 <= j < r.value ==> !fs[j].invalid
    ensures r.None? <==> forall j :: 0 <= j < |fs| ==> !fs[j].invalid
  {
    if fs == [] then None
    else if fs[0].invalid then Some(0)
    else match FirstInvalid(fs[1..])
      case None => None
      case Some(k) => Some(k + 1)
  }

  /** The contact form: its fields in document order (an input missing from
      the page is absent from `fields`), the submit button and the focus. */
  class Form {
    var fields: seq<Field>
    var submitDisabled: bool
    var submitLabel: string
    var focused: Option<nat>

    ghost predicate Valid()
      reads this
    {
      forall i :: 0 <= i < |fields| ==> Coherent(fields[i])
    }

    /** The page as loaded: every error region empty, no field flagged. */
    constructor (kinds: seq<FieldKind>, values: seq<string>, buttonText: string)
      requires |kinds| == |values|
      ensures Valid()
      ensures |fields| == |kinds|
      ensures forall i :: 0 <= i < |kinds| ==> fields[i] == Field(kinds[i], values[i], "", false)
      ensures !submitDisabled && submitLabel == buttonText && focused == None
    {
      fields := seq(|kinds|, i requires 0 <= i < |kinds| => Field(kinds[i], values[i], "", false));
      submitDisabled := false;
      submitLabel := buttonText;
      focused := None;
    }

    /** The `blur` listener: always revalidates the field. */
    method Blur(i: nat)
      requires Valid() && i < |fields|
      modifies this
      ensures Valid()
      ensures fields == old(fields)[i := Revalidated(old(fields)[i])]
      ensures fields[i].invalid <==> Validate(fields[i].kind, fields[i].value) != ""
      ensures submitDisabled == old(submitDisabled) && submitLabel == old(submitLabel)
      ensures focused == old(focused)
    {
      fields := fields[i := Revalidated(fields[i])];
    }

    /** The `input` listener after the value became `v`: a field already
        flagged is revalidated, any other is left as it was. */
    method Input(i: nat, v: string)
      requires Valid() && i < |fields|
      modifies this
      ensures Valid()
      ensures |fields| == |old(fields)| && fields[i].value == v
      ensures old(fields[i].invalid) ==> fields == old(fields)[i := Revalidated(old(fields)[i].(value := v))]
      ensures !old(fields[i].invalid) ==> fields == old(fields)[i := old(fields)[i].(value := v)]
      ensures !old(fields[i].invalid) ==> !fields[i].invalid
      ensures submitDisabled == old(submitDisabled) && submitLabel == old(submitLabel)
      ensures focused == old(focused)
    {
      var typed := fields[i].(value := v);
      if typed.invalid {
        typed := Revalidated(typed);
      }
      fields := fields[i := typed];
    }

    /** The loop of the `submit` listener: every field is revalidated, with
        no early exit, and the result says whether any of them failed. */
    method RevalidateAll() returns (hasErrors: bool)
      requires Valid()
      modifies this
      ensures Valid()
      ensures |fields| == |old(fields)|
      ensures forall k :: 0 <= k < |fields| ==> fields[k] == Revalidated(old(fields)[k])
      ensures hasErrors <==> exists k :: 0 <= k < |fields| && fields[k].invalid
      ensures submitDisabled == old(submitDisabled) && submitLabel == old(submitLabel)
      ensures focused == old(focused)
    {
      hasErrors := false;
      var i := 0;
      while i < |fields|
        invariant 0 <= i <= |fields| == |old(fields)|
        invariant forall k :: 0 <= k < i ==> fields[k] == Revalidated(old(fields)[k])
        invariant forall k :: i <= k < |fields| ==> fields[k] == old(fields)[k]
        invariant hasErrors <==> exists k :: 0 <= k < i && fields[k].invalid
        invariant submitDisabled == old(submitDisabled) && submitLabel == old(submitLabel)
        invariant focused == old(focused)
        invariant Valid()
      {
        // The same three statements as the blur listener.
        Blur(i);
        if fields[i].invalid {
          hasErrors := true;
          if !hasErrors {
            // The source focuses the field here, but the flag was just set.
            assert false;
          }
        }
        i := i + 1;
      }
    }

    /** The `submit` listener: validates every field, then either focuses the
        first flagged field and gives up, or disables the button and shows the
        pending label. */
    method Submit() returns (sent: bool)
      requires Valid()
      modifies this
      ensures Valid()
      ensures |fields| == |old(fields)|
      ensures forall k :: 0 <= k < |fields| ==> fields[k] == Revalidated(old(fields)[k])
      ensures sent <==> forall k :: 0 <= k < |fields| ==> !fields[k].invalid
      ensures !sent ==> FirstInvalid(fields).Some? && focused == FirstInvalid(fields)
      ensures !sent ==> submitDisabled == old(submitDisabled) && submitLabel == old(submitLabel)
      ensures sent ==> submitDisabled && submitLabel == SendingLabel && focused == old(focused)
    {
      var hasErrors := RevalidateAll();
      if hasErrors {
        focused := FirstInvalid(fields);
        sent := false;
        return;
      }
      submitDisabled := true;
      submitLabel := SendingLabel;
      sent := true;
    }
  }
}
