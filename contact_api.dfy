/** The contact route: it drops spam silently, refuses an incomplete
    inquiry, pretends to send while mail is not configured, and otherwise
    hands one message to the mail transport. */
module ContactApi {
  import opened Wrappers
  import opened Text

  /** The request body; every field may be missing. */
  datatype Payload = Payload(
    name: Option<string>, email: Option<string>, company: Option<string>,
    phone: Option<string>, message: Option<string>, website: Option<string>)

  /** A field JavaScript treats as true: present and not empty. */
  predicate Given(v: Option<string>)
  {
    v.Some? && v.value != []
  }

  /** The environment the route reads: `SMTP_HOST`, `SMTP_USER`,
      `SMTP_PASS`, `CONTACT_TO` and `SMTP_FROM`. */
  datatype SmtpEnv = SmtpEnv(
    host: Option<string>, user: Option<string>, pass: Option<string>,
    contactTo: Option<string>, from: Option<string>)

  /** `hasSmtp`: the four settings sending needs are all set and non-empty. */
  predicate HasSmtp(env: SmtpEnv)
  {
    Given(env.host) && Given(env.user) && Given(env.pass) && Given(env.contactTo)
  }

  /** The three fields an inquiry needs. */
  predicate Complete(p: Payload)
  {
    Given(p.name) && Given(p.email) && Given(p.message)
  }

  /** The message handed to the transport's `sendMail`. */
  datatype Mail = Mail(from: string, to: string, subject: string, html: string)

  datatype ContactBody = Accepted(mock: bool) | Rejected(error: string)

  datatype ContactReply = ContactReply(status: nat, body: ContactBody)

  /** What the route answers, and the mail it tried to send, if any. */
  datatype Handling = Handling(reply: ContactReply, mail: Option<Mail>)

  // ---------------------------------------------------------------- the body of the e-mail

  /** `replace(/\n/g, "<br/>")`. */
  function ReplaceNewlines(s: string): (r: string)
    ensures |r| >= |s|
  {
    if s == [] then []
    else (if s[0] == '\n' then "<br/>" else [s[0]]) + ReplaceNewlines(s[1..])
  }

  /** No line feed is left. */
  lemma {:induction false} ReplaceRemovesNewlines(s: string)
    ensures '\n' !in ReplaceNewlines(s)
  {
    if s != [] {
      ReplaceRemovesNewlines(s[1..]);
      var head: string := if s[0] == '\n' then "<br/>" else [s[0]];
      assert '\n' !in head;
    }
  }

  /** A message without line feeds is inserted as it is. */
  lemma {:induction false} ReplaceKeepsPlain(s: string)
    requires '\n' !in s
    ensures ReplaceNewlines(s) == s
  {
    if s != [] {
      assert s[0] != '\n';
      assert '\n' !in s[1..];
      ReplaceKeepsPlain(s[1..]);
      assert [s[0]] + s[1..] == s;
    }
  }

  /** Replacing every line feed is splitting into lines and joining them
      with `<br/>`. */
  lemma {:induction false} ReplaceIsSplitJoin(s: string)
    ensures ReplaceNewlines(s) == Join(Split(s, '\n'), "<br/>")
  {
    if s != [] {
      var rest := Split(s[1..], '\n');
      ReplaceIsSplitJoin(s[1..]);
      if s[0] == '\n' {
        var q := [[]] + rest;
        assert q[1..] == rest;
      } else {
        JoinConsFirst(s[0], rest, "<br/>");
      }
    }
  }

  /** The replacement works line by line: it distributes over concatenation. */
  lemma {:induction false} ReplaceConcat(a: string, b: string)
    ensures ReplaceNewlines(a + b) == ReplaceNewlines(a) + ReplaceNewlines(b)
  {
    if a == [] {
      assert a + b == b;
    } else {
      assert (a + b)[0] == a[0] && (a + b)[1..] == a[1..] + b;
      ReplaceConcat(a[1..], b);
    }
  }

  /** A message of lines joined by line feeds becomes the same lines joined
      by `<br/>`. */
  lemma MessageLines(a: string, b: string)
    requires '\n' !in a && '\n' !in b
    ensures ReplaceNewlines(a + "\n" + b) == a + "<br/>" + b
  {
    var nl := "\n";
    assert ReplaceNewlines(a + nl + b) == ReplaceNewlines(a) + ReplaceNewlines(nl) + ReplaceNewlines(b) by {
      ReplaceConcat(a + nl, b);
      ReplaceConcat(a, nl);
    }
    assert ReplaceNewlines(nl) == "<br/>" by {
      assert nl[0] == '\n' && nl[1..] == [];
    }
    ReplaceKeepsPlain(a);
    ReplaceKeepsPlain(b);
  }

  const Indent := "\n      "

  /** `<p><strong>Label:</strong> value</p>`. */
  function LabelLine(caption: string, value: string): string
  {
    "<p><strong>" + caption + ":</strong> " + value + "</p>"
  }

  /** The company or phone line: the labelled line when the field is given,
      nothing otherwise. */
  function OptionalLine(caption: string, v: Option<string>): (r: string)
    ensures Given(v) ==> r == LabelLine(caption, v.value)
    ensures !Given(v) ==> r == []
  {
    if Given(v) then LabelLine(caption, v.value) else []
  }

  function Subject(name: string): (r: string)
    ensures StartsWith(r, "New inquiry from ") && r[|"New inquiry from "|..] == name
  {
    "New inquiry from " + name
  }

  /** The HTML body: the heading, name, e-mail, the optional company and
      phone lines, and the message with its line feeds turned into `<br/>`. */
  function Html(p: Payload): string
    requires Complete(p)
  {
    Heading(p) + "<p>" + ReplaceNewlines(p.message.value) + "</p>\n    "
  }

  /** Everything before the message paragraph. */
  function Heading(p: Payload): string
    requires Complete(p)
  {
    Indent + "<h2>New Contact Inquiry</h2>"
    + Indent + LabelLine("Name", p.name.value)
    + Indent + LabelLine("Email", p.email.value)
    + Indent + OptionalLine("Company", p.company)
    + Indent + OptionalLine("Phone", p.phone)
    + Indent + "<p><strong>Message:</strong></p>"
    + Indent
  }

  /** The body holds the message with its line feeds turned into `<br/>`. */
  lemma HtmlHoldsMessage(p: Payload)
    requires Complete(p)
    ensures Contains(Html(p), ReplaceNewlines(p.message.value))
  {
    ContainsMiddle(Heading(p) + "<p>", ReplaceNewlines(p.message.value), "</p>\n    ");
  }

  /** The heading holds the name line and the e-mail line: each step below
      appends one part of the heading and keeps what was held before. */
  lemma HeadingHoldsSender(p: Payload)
    requires Complete(p)
    ensures Contains(Heading(p), LabelLine("Name", p.name.value))
    ensures Contains(Heading(p), LabelLine("Email", p.email.value))
  {
    var name := LabelLine("Name", p.name.value);
    var email := LabelLine("Email", p.email.value);
    var h0 := Indent + "<h2>New Contact Inquiry</h2>" + Indent;
    ContainsLast(h0, name);
    ContainsExtended(h0 + name, Indent, name);
    var h1 := h0 + name + Indent;
    ContainsExtended(h1, email, name);
    ContainsLast(h1, email);
    var h2 := h1 + email;
    KeepsBoth(h2, Indent, name, email);
    var h3 := h2 + Indent;
    KeepsBoth(h3, OptionalLine("Company", p.company), name, email);
    var h4 := h3 + OptionalLine("Company", p.company);
    KeepsBoth(h4, Indent, name, email);
    var h5 := h4 + Indent;
    KeepsBoth(h5, OptionalLine("Phone", p.phone), name, email);
    var h6 := h5 + OptionalLine("Phone", p.phone);
    KeepsBoth(h6, Indent, name, email);
    var h7 := h6 + Indent;
    KeepsBoth(h7, "<p><strong>Message:</strong></p>", name, email);
    var h8 := h7 + "<p><strong>Message:</strong></p>";
    KeepsBoth(h8, Indent, name, email);
  }

  /** Appending keeps two held parts at once. */
  lemma KeepsBoth(m: string, b: string, x: string, y: string)
    requires Contains(m, x) && Contains(m, y)
    ensures Contains(m + b, x) && Contains(m + b, y)
  {
    ContainsExtended(m, b, x);
    ContainsExtended(m, b, y);
  }

  /** The body holds the name line, the e-mail line and the message with
      its line feeds turned into `<br/>`. */
  lemma HtmlMentions(p: Payload)
    requires Complete(p)
    ensures Contains(Html(p), LabelLine("Name", p.name.value))
    ensures Contains(Html(p), LabelLine("Email", p.email.value))
    ensures Contains(Html(p), ReplaceNewlines(p.message.value))
  {
    HtmlHoldsMessage(p);
    HeadingHoldsSender(p);
    var name := LabelLine("Name", p.name.value);
    var email := LabelLine("Email", p.email.value);
    var m := ReplaceNewlines(p.message.value);
    KeepsBoth(Heading(p), "<p>", name, email);
    KeepsBoth(Heading(p) + "<p>", m, name, email);
    KeepsBoth(Heading(p) + "<p>" + m, "</p>\n    ", name, email);
  }

  /** An empty company or phone is left out exactly as a missing one is. */
  lemma EmptyOptionalIsAbsent(p: Payload)
    requires Complete(p) && p.company == Some([]) && p.phone == Some([])
    ensures Html(p) == Html(p.(company := None, phone := None))
  {
  }

  /** The message is the last part of the body, one paragraph whose lines
      are joined by `<br/>`. */
  lemma HtmlEndsWithMessage(p: Payload)
    requires Complete(p)
    ensures Html(p) == Heading(p) + ("<p>" + Join(Split(p.message.value, '\n'), "<br/>") + "</p>\n    ")
  {
    ReplaceIsSplitJoin(p.message.value);
  }

  /** `"Website" <address>`, the address being `SMTP_FROM` or else `SMTP_USER`. */
  function FromHeader(env: SmtpEnv): (r: string)
    requires HasSmtp(env)
    ensures Given(env.from) ==> r == "\"Website\" <" + env.from.value + ">"
    ensures !Given(env.from) ==> r == "\"Website\" <" + env.user.value + ">"
  {
    "\"Website\" <" + (if Given(env.from) then env.from.value else env.user.value) + ">"
  }

  /** The mail for a complete inquiry, addressed to `CONTACT_TO`. */
  function Compose(p: Payload, env: SmtpEnv): (m: Mail)
    requires Complete(p) && HasSmtp(env)
    ensures m.to == env.contactTo.value && m.from == FromHeader(env)
    ensures m.subject == Subject(p.name.value) && m.html == Html(p)
  {
    Mail(FromHeader(env), env.contactTo.value, Subject(p.name.value), Html(p))
  }

  // ---------------------------------------------------------------- the route

  const Ok := ContactReply(200, Accepted(false))
  const MockOk := ContactReply(200, Accepted(true))
  const MissingFields := ContactReply(400, Rejected("Missing fields"))
  const SendFailed := ContactReply(500, Rejected("Failed to send"))

  /** `POST /api/contact`. `body` is the parsed JSON, `None` when it does not
      parse; `delivered` is whether `sendMail` succeeds. */
  function Handle(body: Option<Payload>, env: SmtpEnv, delivered: bool): (h: Handling)
    ensures h.mail.Some? <==>
      body.Some? && !Given(body.value.website) && Complete(body.value) && HasSmtp(env)
    ensures h.mail.Some? ==>
      h.mail.value == Compose(body.value, env) && h.reply == (if delivered then Ok else SendFailed)
    ensures body.None? ==> h.reply == SendFailed
    ensures body.Some? && Given(body.value.website) ==> h.reply == Ok
    ensures body.Some? && !Given(body.value.website) && !Complete(body.value) ==>
      h.reply == MissingFields
    ensures body.Some? && !Given(body.value.website) && Complete(body.value) && !HasSmtp(env) ==>
      h.reply == MockOk
  {
    match body
    case None => Handling(SendFailed, None)
    case Some(p) =>
      if Given(p.website) then Handling(Ok, None)
      else if !Given(p.name) || !Given(p.email) || !Given(p.message) then Handling(MissingFields, None)
      else if !HasSmtp(env) then Handling(MockOk, None)
      else
        var m := Compose(p, env);
        Handling(if delivered then Ok else SendFailed, Some(m))
  }

  /** The honeypot comes first: a filled `website` is answered with success
      whatever else the body holds or lacks, and no mail goes out. */
  lemma SpamAlwaysAccepted(p: Payload, q: Payload, env: SmtpEnv, d1: bool, d2: bool)
    requires Given(p.website) && Given(q.website)
    ensures Handle(Some(p), env, d1) == Handle(Some(q), env, d2)
    ensures Handle(Some(p), env, d1).reply.status == 200 && Handle(Some(p), env, d1).mail.None?
  {
  }

  /** Without the mail settings a complete inquiry is answered as sent by
      mock, and the transport's outcome plays no part. */
  lemma MockIgnoresTransport(p: Payload, env: SmtpEnv, d1: bool, d2: bool)
    requires !Given(p.website) && Complete(p) && !HasSmtp(env)
    ensures Handle(Some(p), env, d1) == Handle(Some(p), env, d2)
    ensures Handle(Some(p), env, d1).reply == MockOk
  {
  }

  /** Each answer's status: 200 for the accepted ones, 400 and 500 for the
      two failures, and a mail only behind a 200 or the 500 of a failed send. */
  lemma StatusesOfHandle(body: Option<Payload>, env: SmtpEnv, delivered: bool)
    ensures var h := Handle(body, env, delivered);
      (h.reply.status == 200 <==> h.reply.body.Accepted?) &&
      (h.reply.status == 400 <==> h.reply == MissingFields) &&
      (h.reply.status == 500 <==> h.reply == SendFailed)
  {
  }
}
