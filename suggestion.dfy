/**
  * The suggestion form (class `ContactFormState` of diss_website.py): five
  * text fields, a status line, and `handle_submit`, which formats the fields
  * into a plain-text message addressed from and to the site's own mailbox,
  * hands it to the mail relay and reports the outcome in `status`.
  */
module Suggestion {
  import opened Wrappers
  import opened Strings

  /** The site's mailbox: sender and recipient of every suggestion. */
  const ServiceAddress: string := "ewanblake02@gmail.com"

  const SubjectPrefix: string := "New Website Suggestion: "
  const SuccessStatus: string := "Suggestion submitted successfully!"
  const FailurePrefix: string := "Failed to submit suggestion: "

  /** Indentation the body's lines carry from the triple-quoted literal. */
  const Indent: string := "        "

  const NameLabel: string := "Name: "
  const EmailLabel: string := "Email: "
  const SubjectLabel: string := "Suggested Change or Addition: "
  const PriorityLabel: string := "Priority Level: "
  const DetailsLabel: string := "Details of Suggestion: "

  /** The five form fields; `contact` holds the priority level and `issue` the details. */
  datatype Fields = Fields(name: string, email: string, contact: string, subject: string, issue: string)

  /** The envelope and plain-text part of the message handed to the relay. */
  datatype Message = Message(sender: string, recipient: string, subject: string, body: string)

  /** What the relay session reported: every step succeeded, or one raised with this text. */
  datatype Outcome = Sent | Failed(detail: string)

  /**
    * The lines of the triple-quoted body template: an empty first line, one
    * indented labelled line per field, and the indentation of the closing quotes.
    */
  function BodyLines(f: Fields): seq<string>
  {
    [ "",
      Indent + NameLabel + f.name,
      Indent + EmailLabel + f.email,
      Indent + SubjectLabel + f.subject,
      Indent + PriorityLabel + f.contact,
      Indent + DetailsLabel + f.issue,
      Indent ]
  }

  /** Lines joined with a newline between each two, as a multi-line literal reads. */
  function JoinLines(lines: seq<string>): string
    requires |lines| >= 1
  {
    if |lines| == 1 then lines[0] else lines[0] + "\n" + JoinLines(lines[1..])
  }

  /** The body text exactly as the triple-quoted template lays it out. */
  function Body(f: Fields): (r: string)
    ensures r == "\n" + Indent + NameLabel + f.name
                 + "\n" + Indent + EmailLabel + f.email
                 + "\n" + Indent + SubjectLabel + f.subject
                 + "\n" + Indent + PriorityLabel + f.contact
                 + "\n" + Indent + DetailsLabel + f.issue
                 + "\n" + Indent
  {
    JoinedTemplate(f);
    JoinLines(BodyLines(f))
  }

  lemma {:induction false} JoinSnoc(lines: seq<string>, last: string)
    requires |lines| >= 1
    ensures JoinLines(lines + [last]) == JoinLines(lines) + "\n" + last
  {
    if |lines| > 1 {
      assert (lines + [last])[1..] == lines[1..] + [last];
      JoinSnoc(lines[1..], last);
    }
  }

  lemma AppendLine(prefix: string, tag: string, value: string)
    ensures prefix + "\n" + Indent + tag + value == prefix + "\n" + (Indent + tag + value)
  {
  }

  /** The joined lines are the template's text, character for character. */
  lemma JoinedTemplate(f: Fields)
    ensures JoinLines(BodyLines(f))
            == "\n" + Indent + NameLabel + f.name
               + "\n" + Indent + EmailLabel + f.email
               + "\n" + Indent + SubjectLabel + f.subject
               + "\n" + Indent + PriorityLabel + f.contact
               + "\n" + Indent + DetailsLabel + f.issue
               + "\n" + Indent
  {
    var ls := BodyLines(f);
    assert JoinLines(ls[..1]) == "";
    JoinSnoc(ls[..1], ls[1]);
    assert ls[..2] == ls[..1] + [ls[1]];
    JoinSnoc(ls[..2], ls[2]);
    assert ls[..3] == ls[..2] + [ls[2]];
    JoinSnoc(ls[..3], ls[3]);
    assert ls[..4] == ls[..3] + [ls[3]];
    JoinSnoc(ls[..4], ls[4]);
    assert ls[..5] == ls[..4] + [ls[4]];
    JoinSnoc(ls[..5], ls[5]);
    assert ls[..6] == ls[..5] + [ls[5]];
    JoinSnoc(ls[..6], ls[6]);
    assert ls == ls[..6] + [ls[6]];
    var p1 := "\n" + Indent + NameLabel + f.name;
    assert JoinLines(ls[..2]) == p1;
    var p2 := p1 + "\n" + Indent + EmailLabel + f.email;
    AppendLine(p1, EmailLabel, f.email);
    var p3 := p2 + "\n" + Indent + SubjectLabel + f.subject;
    AppendLine(p2, SubjectLabel, f.subject);
    var p4 := p3 + "\n" + Indent + PriorityLabel + f.contact;
    AppendLine(p3, PriorityLabel, f.contact);
    var p5 := p4 + "\n" + Indent + DetailsLabel + f.issue;
    AppendLine(p4, DetailsLabel, f.issue);
  }

  /** The message `handle_submit` builds before it opens the relay session. */
  function Compose(f: Fields): (m: Message)
    ensures m.sender == ServiceAddress && m.recipient == ServiceAddress
    ensures |m.subject| >= |SubjectPrefix| && m.subject[..|SubjectPrefix|] == SubjectPrefix
    ensures m.subject[|SubjectPrefix|..] == f.subject
    ensures m.body == Body(f)
  {
    Message(ServiceAddress, ServiceAddress, SubjectPrefix + f.subject, Body(f))
  }

  /**
    * The status text for an outcome: exactly the success message when the
    * relay succeeded, otherwise the failure prefix followed by the detail.
    */
  function StatusText(o: Outcome): (r: string)
    ensures r == SuccessStatus <==> o.Sent?
    ensures o.Failed? ==> StartsWith(r, FailurePrefix) && r[|FailurePrefix|..] == o.detail
  {
    match o
    case Sent => SuccessStatus
    case Failed(d) =>
      assert (FailurePrefix + d)[0] == 'F' && SuccessStatus[0] == 'S';
      assert (FailurePrefix + d)[..|FailurePrefix|] == FailurePrefix;
      FailurePrefix + d
  }

  /** Reads an outcome back from a status text. */
  function ParseStatus(s: string): Option<Outcome>
  {
    if s == SuccessStatus then Some(Sent)
    else if StartsWith(s, FailurePrefix) then Some(Failed(s[|FailurePrefix|..]))
    else None
  }

  /** Distinct outcomes give distinct status texts, and the failure detail can be recovered. */
  lemma StatusRoundTrip(o: Outcome)
    ensures ParseStatus(StatusText(o)) == Some(o)
  {
    match o
    case Sent =>
      assert SuccessStatus[0] == 'S';
    case Failed(d) =>
      var s := FailurePrefix + d;
      assert s[0] == 'F' && SuccessStatus[0] == 'S';
      assert s[..|FailurePrefix|] == FailurePrefix;
      assert s[|FailurePrefix|..] == d;
  }

  predicate NoNewline(s: string) { forall k :: 0 <= k < |s| ==> s[k] != '\n' }

  /** A text cut at its first newline: the line before it and the rest after it. */
  datatype Cut = Cut(line: string, rest: string)

  /** Cuts `s` at its first newline; nothing when it has none. */
  function CutLine(s: string): (r: Option<Cut>)
    ensures r.Some? ==> NoNewline(r.value.line) && s == r.value.line + "\n" + r.value.rest
    ensures r.None? ==> NoNewline(s)
  {
    if s == [] then None
    else if s[0] == '\n' then Some(Cut("", s[1..]))
    else
      match CutLine(s[1..])
      case None => None
      case Some(c) => Some(Cut([s[0]] + c.line, c.rest))
  }

  /** The first `n` lines of a text and everything after the `n`-th newline. */
  datatype Lines = Lines(lines: seq<string>, rest: string)

  /** Cuts the first `n` lines off `s`; nothing when `s` has fewer than `n` newlines. */
  function CutLines(s: string, n: nat): (r: Option<Lines>)
    ensures r.Some? ==> |r.value.lines| == n
    ensures r.Some? ==> forall k :: 0 <= k < n ==> NoNewline(r.value.lines[k])
    ensures r.Some? ==> s == JoinLines(r.value.lines + [r.value.rest])
    decreases n
  {
    if n == 0 then Some(Lines([], s))
    else
      match CutLine(s)
      case None => None
      case Some(c) =>
        match CutLines(c.rest, n - 1)
        case None => None
        case Some(t) =>
          assert ([c.line] + t.lines + [t.rest])[1..] == t.lines + [t.rest];
          Some(Lines([c.line] + t.lines, t.rest))
  }

  /** Cutting at the first newline undoes putting a line without one in front. */
  lemma {:induction false} CutLineAt(a: string, b: string)
    requires NoNewline(a)
    ensures CutLine(a + "\n" + b) == Some(Cut(a, b))
  {
    if a == [] {
      assert a + "\n" + b == "\n" + b;
      assert ("\n" + b)[1..] == b;
    } else {
      var s := a + "\n" + b;
      assert s[0] == a[0];
      assert s[1..] == a[1..] + "\n" + b;
      CutLineAt(a[1..], b);
      assert [a[0]] + a[1..] == a;
    }
  }

  /** Cutting `|lines|` lines undoes joining lines without newlines in front of any `rest`. */
  lemma {:induction false} CutLinesJoin(lines: seq<string>, rest: string)
    requires forall k :: 0 <= k < |lines| ==> NoNewline(lines[k])
    ensures CutLines(JoinLines(lines + [rest]), |lines|) == Some(Lines(lines, rest))
  {
    if lines != [] {
      var all := lines + [rest];
      assert all[1..] == lines[1..] + [rest];
      CutLineAt(lines[0], JoinLines(lines[1..] + [rest]));
      CutLinesJoin(lines[1..], rest);
      assert [lines[0]] + lines[1..] == lines;
    }
  }

  /** The text after `tag` on a body line, if the line is `Indent + tag + value`. */
  function FieldValue(line: string, tag: string): (r: Option<string>)
    ensures r.Some? ==> line == Indent + tag + r.value
  {
    var head := Indent + tag;
    if StartsWith(line, head) then
      assert line == head + line[|head|..];
      Some(line[|head|..])
    else None
  }

  /** The indentation of the closing quotes, on a line of its own. */
  const Closing: string := "\n" + Indent

  /**
    * Reads the five fields back from a message body: the first five lines
    * (an empty one, then name, email, suggested change and priority) are
    * single lines, and the details are everything from the sixth line up to
    * the closing indentation, line breaks included.
    */
  function ParseBody(body: string): Option<Fields>
  {
    if !EndsWith(body, Closing) then None
    else
      match CutLines(body[..|body| - |Closing|], 5)
      case None => None
      case Some(t) =>
        if t.lines[0] != "" then None
        else
          match (FieldValue(t.lines[1], NameLabel), FieldValue(t.lines[2], EmailLabel),
                 FieldValue(t.lines[3], SubjectLabel), FieldValue(t.lines[4], PriorityLabel),
                 FieldValue(t.rest, DetailsLabel))
          case (Some(n), Some(e), Some(s), Some(c), Some(i)) => Some(Fields(n, e, c, s, i))
          case _ => None
  }

  /** The four fields filled from one-line inputs and a drop-down menu hold no line break. */
  predicate SingleLineInputs(f: Fields)
  {
    NoNewline(f.name) && NoNewline(f.email) && NoNewline(f.contact) && NoNewline(f.subject)
  }

  lemma LabelledLine(tag: string, value: string)
    ensures FieldValue(Indent + tag + value, tag) == Some(value)
  {
    var line := Indent + tag + value;
    assert line[..|Indent + tag|] == Indent + tag;
    assert line[|Indent + tag|..] == value;
  }

  lemma SingleLabelledLine(tag: string, value: string)
    requires NoNewline(tag) && NoNewline(value)
    ensures NoNewline(Indent + tag + value)
  {
  }

  /** The body is its first six lines followed by the closing indentation. */
  lemma BodyClosing(f: Fields)
    ensures JoinLines(BodyLines(f)) == JoinLines(BodyLines(f)[..5] + [BodyLines(f)[5]]) + Closing
  {
    var ls := BodyLines(f);
    JoinSnoc(ls[..6], ls[6]);
    assert ls == ls[..6] + [ls[6]];
    assert ls[..6] == ls[..5] + [ls[5]];
  }

  /**
    * The body lists name, email, suggested change, priority and details, one
    * per labelled line, in that order: when the four one-line fields contain
    * no line break, `ParseBody` recovers all five from it, whatever the
    * details contain.
    */
  lemma BodyRoundTrip(f: Fields)
    requires SingleLineInputs(f)
    ensures ParseBody(Body(f)) == Some(f)
  {
    JoinedRoundTrip(f);
  }

  lemma JoinedRoundTrip(f: Fields)
    requires SingleLineInputs(f)
    ensures ParseBody(JoinLines(BodyLines(f))) == Some(f)
  {
    var ls := BodyLines(f);
    var head := JoinLines(ls[..5] + [ls[5]]);
    var body := JoinLines(ls);
    BodyClosing(f);
    assert body[..|body| - |Closing|] == head;
    SingleLabelledLine(NameLabel, f.name);
    SingleLabelledLine(EmailLabel, f.email);
    SingleLabelledLine(SubjectLabel, f.subject);
    SingleLabelledLine(PriorityLabel, f.contact);
    CutLinesJoin(ls[..5], ls[5]);
    LabelledLine(NameLabel, f.name);
    LabelledLine(EmailLabel, f.email);
    LabelledLine(SubjectLabel, f.subject);
    LabelledLine(PriorityLabel, f.contact);
    LabelledLine(DetailsLabel, f.issue);
  }

  /** Whatever `ParseBody` accepts is exactly the body of the fields it returns. */
  lemma ParseBodySound(body: string, f: Fields)
    requires ParseBody(body) == Some(f)
    ensures Body(f) == body
  {
    var head := body[..|body| - |Closing|];
    var t := CutLines(head, 5).value;
    assert FieldValue(t.lines[1], NameLabel) == Some(f.name);
    assert FieldValue(t.lines[2], EmailLabel) == Some(f.email);
    assert FieldValue(t.lines[3], SubjectLabel) == Some(f.subject);
    assert FieldValue(t.lines[4], PriorityLabel) == Some(f.contact);
    assert FieldValue(t.rest, DetailsLabel) == Some(f.issue);
    BodyFromLines(t.lines, t.rest, f);
    assert body == head + Closing;
    assert Body(f) == JoinLines(BodyLines(f));
  }

  /** Five lines and a rest that hold the template's lines for `f` join back into `Body(f)`. */
  lemma BodyFromLines(lines: seq<string>, rest: string, f: Fields)
    requires |lines| == 5 && lines[0] == ""
    requires lines[1] == Indent + NameLabel + f.name && lines[2] == Indent + EmailLabel + f.email
    requires lines[3] == Indent + SubjectLabel + f.subject && lines[4] == Indent + PriorityLabel + f.contact
    requires rest == Indent + DetailsLabel + f.issue
    ensures JoinLines(lines + [rest]) + Closing == JoinLines(BodyLines(f))
  {
    var ls := BodyLines(f);
    assert lines == ls[..5];
    BodyClosing(f);
  }

  /** The state of the suggestion form. */
  class ContactFormState {
    var name: string
    var email: string
    var contact: string
    var subject: string
    var issue: string
    var status: string

    /** All fields and the status start empty. */
    constructor ()
      ensures name == "" && email == "" && contact == "" && subject == "" && issue == ""
      ensures status == ""
    {
      name, email, contact, subject, issue := "", "", "", "", "";
      status := "";
    }

    function CurrentFields(): Fields
      reads this
    {
      Fields(name, email, contact, subject, issue)
    }

    /**
      * `handle_submit`: builds the message from the current fields and returns
      * it as handed to the relay; `outcome` is what the relay session reported.
      * The status is replaced by the outcome's text and nothing else changes.
      */
    method HandleSubmit(outcome: Outcome) returns (msg: Message)
      modifies this`status
      ensures msg == Compose(CurrentFields())
      ensures status == StatusText(outcome)
      ensures ParseStatus(status) == Some(outcome)
    {
      var content := Body(CurrentFields());
      msg := Message(ServiceAddress, ServiceAddress, SubjectPrefix + subject, content);
      StatusRoundTrip(outcome);
      match outcome
      case Sent =>
        status := SuccessStatus;
      case Failed(detail) =>
        status := FailurePrefix + detail;
    }
  }
}
