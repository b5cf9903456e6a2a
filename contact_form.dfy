/** The contact form on the public site: its fields, the checks it runs
    before posting, and how its flags move through a submission. */
module ContactForm {
  import opened Wrappers
  import opened Text

  /** The form's inputs; the hidden `website` input is a honeypot. */
  datatype FormState = FormState(
    name: string, email: string, company: string, phone: string,
    message: string, website: string)

  /** The inputs by their `name` attribute. */
  datatype Field = Name | Email | Company | Phone | Message | Website

  const Blank := FormState("", "", "", "", "", "")

  function Get(f: FormState, field: Field): string
  {
    match field
    case Name => f.name
    case Email => f.email
    case Company => f.company
    case Phone => f.phone
    case Message => f.message
    case Website => f.website
  }

  /** `{ ...s, [name]: value }`: one field replaced, the others kept. */
  function With(f: FormState, field: Field, value: string): (r: FormState)
    ensures Get(r, field) == value
    ensures forall other :: other != field ==> Get(r, other) == Get(f, other)
  {
    match field
    case Name => f.(name := value)
    case Email => f.(email := value)
    case Company => f.(company := value)
    case Phone => f.(phone := value)
    case Message => f.(message := value)
    case Website => f.(website := value)
  }

  // ---------------------------------------------------------------- e-mail pattern

  /** A character the pattern's `[^@\s]` class accepts. */
  predicate Plain(s: string)
  {
    forall k :: 0 <= k < |s| ==> s[k] != '@' && !IsSpace(s[k])
  }

  /** The regular expression `^[^@\s]+@[^@\s]+\.[^@\s]+$`, written as the
      split it describes: a local part, `@`, a domain name, `.` and a final
      label, each part non-empty and free of `@` and white space. */
  ghost predicate MatchesPattern(s: string)
  {
    exists i, j :: 0 < i && i + 1 < j && j + 1 < |s| && PatternAt(s, i, j)
  }

  ghost predicate PatternAt(s: string, i: int, j: int)
    requires 0 < i && i + 1 < j && j + 1 < |s|
  {
    s[i] == '@' && s[j] == '.' && Plain(s[..i]) && Plain(s[i + 1..j]) && Plain(s[j + 1..])
  }

  /** A dot with at least one character on each side of it. */
  predicate InnerDot(d: string)
  {
    |d| >= 3 && '.' in d[1..|d| - 1]
  }

  /** The client's e-mail test, decided from the pieces around `@`: exactly
      one `@`, something before it, no white space at all, and a dot inside
      what follows the `@`. */
  predicate EmailValid(s: string)
  {
    var parts := Split(s, '@');
    |parts| == 2 && parts[0] != [] && NoSpace(s) && InnerDot(parts[1])
  }

  /** The pieces decision and the regular expression accept the same strings. */
  lemma EmailValidIff(s: string)
    ensures EmailValid(s) <==> MatchesPattern(s)
  {
    if EmailValid(s) {
      EmailValidMatches(s);
    }
    if MatchesPattern(s) {
      MatchesEmailValid(s);
    }
  }

  lemma EmailValidMatches(s: string)
    requires EmailValid(s)
    ensures MatchesPattern(s)
  {
    var parts := Split(s, '@');
    var a, d := parts[0], parts[1];
    JoinSplit(s, '@');
    assert parts[1..] == [d];
    assert s == a + ['@'] + d;
    var m :| 0 <= m < |d[1..|d| - 1]| && d[1..|d| - 1][m] == '.';
    var i := |a|;
    var j := i + 2 + m;
    assert s[..i] == a;
    assert s[i + 1..j] == d[..m + 1];
    assert s[j + 1..] == d[m + 2..];
    assert PatternAt(s, i, j);
  }

  lemma MatchesEmailValid(s: string)
    requires MatchesPattern(s)
    ensures EmailValid(s)
  {
    var i, j :| 0 < i && i + 1 < j && j + 1 < |s| && PatternAt(s, i, j);
    var a, d := s[..i], s[i + 1..];
    PatternPieces(s, i, j);
    PatternNoSpace(s, i, j);
    assert d[1..|d| - 1][j - i - 2] == '.';
  }

  /** Splitting a match at `@` gives the local part and the rest. */
  lemma PatternPieces(s: string, i: int, j: int)
    requires 0 < i && i + 1 < j && j + 1 < |s| && PatternAt(s, i, j)
    ensures Split(s, '@') == [s[..i], s[i + 1..]]
  {
    var a, d := s[..i], s[i + 1..];
    assert s == a + ['@'] + d;
    assert d == s[i + 1..j] + ['.'] + s[j + 1..];
    assert '@' !in a;
    assert '@' !in d;
    SplitSeparated(a, d, '@');
    SplitWithoutSeparator(d, '@');
  }

  lemma PatternNoSpace(s: string, i: int, j: int)
    requires 0 < i && i + 1 < j && j + 1 < |s| && PatternAt(s, i, j)
    ensures NoSpace(s)
    ensures forall k :: 0 <= k < |s| && k != i ==> s[k] != '@'
  {
    forall k | 0 <= k < |s|
      ensures !IsSpace(s[k]) && (k != i ==> s[k] != '@')
    {
      if k < i {
        assert s[k] == s[..i][k];
      } else if i < k < j {
        assert s[k] == s[i + 1..j][k - i - 1];
      } else if j < k {
        assert s[k] == s[j + 1..][k - j - 1];
      }
    }
  }

  /** What an accepted address looks like: one `@` only, no white space,
      and a `.` after the `@` with text on both sides of it. */
  lemma AcceptedEmailShape(s: string)
    requires EmailValid(s)
    ensures NoSpace(s)
    ensures exists i :: (0 < i < |s| && s[i] == '@' &&
      (forall k :: 0 <= k < |s| && k != i ==> s[k] != '@') &&
      (exists j :: i + 1 < j < |s| - 1 && s[j] == '.'))
  {
    EmailValidMatches(s);
    var i, j :| 0 < i && i + 1 < j && j + 1 < |s| && PatternAt(s, i, j);
    PatternNoSpace(s, i, j);
  }

  // ---------------------------------------------------------------- validation

  const NameError := "Please enter your name."
  const EmailError := "Please enter a valid email."
  const MessageError := "Message is too short."
  const SpamError := "Spam detected."

  /** The shortest message, counted after trimming. */
  const MinMessage := 10

  /** All four checks pass. */
  predicate Acceptable(f: FormState)
  {
    Trim(f.name) != [] && EmailValid(f.email) && |Trim(f.message)| >= MinMessage && f.website == []
  }

  /** `validate`: the first failing check's message, or `None`. */
  function Validate(f: FormState): (r: Option<string>)
    ensures r.None? <==> Acceptable(f)
    ensures Trim(f.name) == [] ==> r == Some(NameError)
    ensures Trim(f.name) != [] && !EmailValid(f.email) ==> r == Some(EmailError)
    ensures Trim(f.name) != [] && EmailValid(f.email) && |Trim(f.message)| < MinMessage ==>
      r == Some(MessageError)
  {
    if Trim(f.name) == [] then Some(NameError)
    else if !EmailValid(f.email) then Some(EmailError)
    else if Trim(f.message) == [] || |Trim(f.message)| < MinMessage then Some(MessageError)
    else if f.website != [] then Some(SpamError)
    else None
  }

  /** The honeypot is the last check: a bot that also leaves the name blank
      is told about the name, and only a form otherwise fine is called spam. */
  lemma SpamReportedLast(f: FormState)
    requires f.website != []
    ensures Validate(f) == Some(SpamError) <==>
      Trim(f.name) != [] && EmailValid(f.email) && |Trim(f.message)| >= MinMessage
    ensures Trim(f.name) == [] ==> Validate(f) == Some(NameError)
  {
  }

  /** The length boundary: with white space around it, a message of nine
      characters is too short and one of ten is long enough. */
  lemma MessageBoundary(f: FormState, w: string, t: string, w2: string)
    requires Trim(f.name) != [] && EmailValid(f.email) && f.website == []
    requires AllSpace(w) && AllSpace(w2) && t != [] && !IsSpace(t[0]) && !IsSpace(t[|t| - 1])
    ensures |t| == 9 ==> Validate(f.(message := w + t + w2)) == Some(MessageError)
    ensures |t| == 10 ==> Validate(f.(message := w + t + w2)) == None
  {
    TrimPadded(w, t, w2);
  }

  // ---------------------------------------------------------------- the component

  /** What the post to `/api/contact` came back with. */
  datatype Outcome = Response(ok: bool, status: nat) | Thrown(message: string)

  /** The message `catch` shows: `err.message || "Failed to send message."`. */
  function FailureText(o: Outcome): (r: string)
    requires !(o.Response? && o.ok)
    ensures r != []
    ensures o.Response? ==> r == "HTTP " + NatToString(o.status)
    ensures o.Thrown? && o.message != [] ==> r == o.message
  {
    match o
    case Response(_, status) => "HTTP " + NatToString(status)
    case Thrown(m) => if m != [] then m else "Failed to send message."
  }

  /** The component's state. `submit` is asynchronous, so it is split in
      two: `Submit` runs up to the request, `Settle` runs once it answers. */
  class ContactSection {
    var form: FormState
    var submitting: bool
    var ok: bool
    var error: Option<string>

    constructor ()
      ensures form == Blank && !submitting && !ok && error == None
    {
      form := Blank;
      submitting := false;
      ok := false;
      error := None;
    }

    /** `onChange`: the edited input's field takes its new value. */
    method OnChange(field: Field, value: string)
      modifies this
      ensures form == With(old(form), field, value)
      ensures submitting == old(submitting) && ok == old(ok) && error == old(error)
    {
      form := With(form, field, value);
    }

    /** The synchronous part of `submit`: clears the error and validates.
        A failing form gets its message and no request; an acceptable one
        sets `submitting` and is returned as the body to post. */
    method Submit() returns (request: Option<FormState>)
      modifies this
      ensures form == old(form) && ok == old(ok)
      ensures error == Validate(form)
      ensures request.Some? <==> error.None?
      ensures request.Some? ==> request.value == form && submitting
      ensures request.None? ==> submitting == old(submitting)
    {
      error := None;
      var v := Validate(form);
      if v.Some? {
        error := v;
        request := None;
        return;
      }
      submitting := true;
      request := Some(form);
    }

    /** The rest of `submit`: on an OK answer the form is reset and `ok`
        set; otherwise the failure is shown and the inputs are kept. Either
        way `submitting` ends false. */
    method Settle(outcome: Outcome)
      modifies this
      ensures !submitting
      ensures outcome.Response? && outcome.ok ==> ok && form == Blank && error == old(error)
      ensures !(outcome.Response? && outcome.ok) ==>
        ok == old(ok) && form == old(form) && error == Some(FailureText(outcome))
    {
      if outcome.Response? && outcome.ok {
        ok := true;
        form := Blank;
      } else {
        error := Some(FailureText(outcome));
      }
      submitting := false;
    }
  }

  /** A reset form is blank in every field, the honeypot included, so it
      fails validation again until the visitor fills it in. */
  lemma BlankIsRejected()
    ensures forall field :: Get(Blank, field) == []
    ensures Validate(Blank) == Some(NameError)
  {
  }
}
