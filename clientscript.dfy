/**
  * The page handlers of CV_refinement/script.js, with the DOM replaced by
  * their inputs (field values, the index passed in, the random pick) and
  * their outputs (the text and colour written to an element).
  */
module ClientScript {
  import opened Wrappers
  import opened JsText
  import opened Strings
  import Decimal

  /** Text written into an output element and the colour it is given. */
  datatype Feedback = Feedback(text: string, color: string)

  // ---------------------------------------------------------------- contact form

  const FillAllFields: string := "Please fill in all fields."
  const ThankYou: string := "Thank you for reaching out! We\U{2019}ll get back to you soon."

  /** What the submit handler shows, and whether it resets the form. */
  datatype ContactResult = ContactResult(message: Feedback, resetForm: bool)

  /**
    * The contact form's submit handler: the three trimmed values must all be
    * non-empty; otherwise the warning is shown in red and the form is kept.
    */
  function ContactSubmit(name: string, email: string, message: string): (r: ContactResult)
    ensures r.resetForm <==> !AllSpace(name) && !AllSpace(email) && !AllSpace(message)
    ensures !r.resetForm ==> r.message == Feedback(FillAllFields, "red")
    ensures r.resetForm ==> r.message == Feedback(ThankYou, "green")
  {
    if Trim(name) == "" || Trim(email) == "" || Trim(message) == "" then
      ContactResult(Feedback(FillAllFields, "red"), false)
    else
      ContactResult(Feedback(ThankYou, "green"), true)
  }

  // ---------------------------------------------------------------- text generator

  /** The three canned responses about a topic, each with the topic after a fixed opening. */
  function Responses(topic: string): (r: seq<string>)
    ensures |r| == 3
    ensures StartsWith(r[0], "AI is transforming the world of ") && OccursAt(r[0], topic, 32)
    ensures StartsWith(r[1], "The future of ") && OccursAt(r[1], topic, 14)
    ensures StartsWith(r[2], "With AI, ") && OccursAt(r[2], topic, 9)
  {
    [ "AI is transforming the world of " + topic + " by improving efficiency and accuracy.",
      "The future of " + topic + " is deeply connected to AI advancements.",
      "With AI, " + topic + " is evolving at an unprecedented pace!" ]
  }

  lemma ResponsesMentionTopic(topic: string)
    ensures |Responses(topic)| == 3
    ensures forall k :: 0 <= k < 3 ==> Includes(Responses(topic)[k], topic)
  {
    IncludesMiddle("AI is transforming the world of ", topic, " by improving efficiency and accuracy.");
    IncludesMiddle("The future of ", topic, " is deeply connected to AI advancements.");
    IncludesMiddle("With AI, ", topic, " is evolving at an unprecedented pace!");
  }

  /**
    * `generateText`; `pick` stands for `Math.floor(Math.random() * 3)`, which
    * is always 0, 1 or 2. Blank input gets the red prompt; otherwise the
    * picked response, which always mentions the trimmed topic, in green.
    */
  function GenerateText(input: string, pick: nat): (r: Feedback)
    requires pick < 3
    ensures AllSpace(input) ==> r == Feedback("Please enter a topic!", "red")
    ensures !AllSpace(input) ==> r.color == "green" && r.text == Responses(Trim(input))[pick]
    ensures !AllSpace(input) ==> Includes(r.text, Trim(input))
  {
    var topic := Trim(input);
    if topic == "" then Feedback("Please enter a topic!", "red")
    else
      ResponsesMentionTopic(topic);
      Feedback(Responses(topic)[pick], "green")
  }

  // ---------------------------------------------------------------- sentiment

  const PositiveWords: seq<string> := ["happy", "great", "excellent", "love", "amazing"]
  const NegativeWords: seq<string> := ["sad", "bad", "terrible", "hate", "awful"]

  const PositiveLabel: string := "Positive \U{1F60A}"
  const NegativeLabel: string := "Negative \U{1F61E}"

  /** Some word of the list occurs somewhere in `s`. */
  predicate MentionsAny(s: string, words: seq<string>)
  {
    exists k :: 0 <= k < |words| && Includes(s, words[k])
  }

  /**
    * The verdict on lower-cased, non-blank text: any negative word makes it
    * negative; otherwise any positive word makes it positive; else neutral.
    */
  function Classify(lowered: string): Feedback
  {
    if MentionsAny(lowered, NegativeWords) then Feedback("Sentiment: " + NegativeLabel, "red")
    else if MentionsAny(lowered, PositiveWords) then Feedback("Sentiment: " + PositiveLabel, "green")
    else Feedback("Sentiment: Neutral", "gray")
  }

  /** The three verdicts are distinct, and each holds exactly in its case. */
  lemma ClassifyCases(lowered: string)
    ensures MentionsAny(lowered, NegativeWords)
            ==> Classify(lowered) == Feedback("Sentiment: " + NegativeLabel, "red")
    ensures Classify(lowered) == Feedback("Sentiment: " + PositiveLabel, "green")
            <==> MentionsAny(lowered, PositiveWords) && !MentionsAny(lowered, NegativeWords)
    ensures Classify(lowered) == Feedback("Sentiment: Neutral", "gray")
            <==> !MentionsAny(lowered, PositiveWords) && !MentionsAny(lowered, NegativeWords)
    ensures Classify(lowered).text[..|"Sentiment: "|] == "Sentiment: "
  {
    assert NegativeLabel[0] == 'N' && PositiveLabel[0] == 'P';
  }

  /** The loops' findings, stated as booleans, determine the verdict. */
  lemma VerdictFromFindings(lowered: string, positive: bool, negative: bool)
    requires positive <==> MentionsAny(lowered, PositiveWords)
    requires negative <==> MentionsAny(lowered, NegativeWords)
    ensures Classify(lowered)
            == Feedback("Sentiment: " + (if negative then NegativeLabel else if positive then PositiveLabel else "Neutral"),
                        if negative then "red" else if positive then "green" else "gray")
  {
  }

  /**
    * `analyzeSentiment`: blank input gets the red prompt. Otherwise the
    * positive list is searched first and the negative list second, each
    * stopping at its first hit, so a negative word overrides a positive one.
    */
  method AnalyzeSentiment(input: string) returns (out: Feedback)
    ensures AllSpace(input) ==> out == Feedback("Please enter a sentence!", "red")
    ensures !AllSpace(input) ==> out == Classify(AsciiLower(Trim(input)))
  {
    var userInput := Trim(input);
    if userInput == "" {
      return Feedback("Please enter a sentence!", "red");
    }
    out := KeywordVerdict(AsciiLower(userInput));
  }

  /** The two keyword loops of `analyzeSentiment`, run on the lower-cased input. */
  method KeywordVerdict(lowered: string) returns (out: Feedback)
    ensures out == Classify(lowered)
  {
    var sentiment, color := "Neutral", "gray";

    ghost var positive := false;
    var i := 0;
    while i < |PositiveWords|
      invariant 0 <= i <= |PositiveWords|
      invariant forall k :: 0 <= k < i ==> !Includes(lowered, PositiveWords[k])
      invariant !positive && sentiment == "Neutral" && color == "gray"
    {
      if Includes(lowered, PositiveWords[i]) {
        sentiment, color := PositiveLabel, "green";
        positive := true;
        break;
      }
      i := i + 1;
    }
    assert positive <==> MentionsAny(lowered, PositiveWords);
    assert sentiment == (if positive then PositiveLabel else "Neutral");
    assert color == (if positive then "green" else "gray");

    ghost var negative := false;
    var j := 0;
    while j < |NegativeWords|
      invariant 0 <= j <= |NegativeWords|
      invariant forall k :: 0 <= k < j ==> !Includes(lowered, NegativeWords[k])
      invariant !negative
      invariant sentiment == (if positive then PositiveLabel else "Neutral")
      invariant color == (if positive then "green" else "gray")
    {
      if Includes(lowered, NegativeWords[j]) {
        sentiment, color := NegativeLabel, "red";
        negative := true;
        break;
      }
      j := j + 1;
    }
    assert negative <==> MentionsAny(lowered, NegativeWords);
    VerdictFromFindings(lowered, positive, negative);
    out := Feedback("Sentiment: " + sentiment, color);
  }

  // ---------------------------------------------------------------- quiz question

  const CorrectFeedback: string := "Correct! AI stands for Artificial Intelligence."
  const IncorrectFeedback: string := "Incorrect. AI stands for Artificial Intelligence."

  /** `checkAnswer`: only the exact string "A" is right. */
  function CheckAnswer(answer: string): (r: string)
    ensures r == CorrectFeedback <==> answer == "A"
    ensures r != CorrectFeedback ==> r == IncorrectFeedback
  {
    if answer == "A" then CorrectFeedback else IncorrectFeedback
  }

  // ---------------------------------------------------------------- character counter

  const MaxMessageLength: nat := 500
  const CounterSuffix: string := "/500"

  /**
    * The counter under the message box: the value's length in UTF-16 code
    * units, then "/500", in red once the length passes 500 and grey otherwise.
    */
  function CharCounter(value: string): (r: Feedback)
    ensures |r.text| > |CounterSuffix| && r.text[|r.text| - |CounterSuffix|..] == CounterSuffix
    ensures Decimal.ParseInt(r.text[..|r.text| - |CounterSuffix|]) == Some(Utf16Length(value))
    ensures r.color == "red" <==> Utf16Length(value) > MaxMessageLength
    ensures r.color != "red" ==> r.color == "#666"
  {
    var count := Utf16Length(value);
    var digits := Decimal.NatToString(count);
    Decimal.IntToStringRoundTrip(count);
    assert (digits + CounterSuffix)[..|digits|] == digits;
    assert (digits + CounterSuffix)[|digits|..] == CounterSuffix;
    Feedback(digits + CounterSuffix, if count > MaxMessageLength then "red" else "#666")
  }

  // ---------------------------------------------------------------- FAQ and topic toggles

  const Shown: string := "block"
  const Hidden: string := "none"
  const UpArrow: string := "\U{25B2}"
  const DownArrow: string := "\U{25BC}"

  /** The new `style.display`: "block" hides, any other value (including "") shows. */
  function NextDisplay(display: string): (r: string)
    ensures r == Hidden <==> display == Shown
    ensures r != Hidden ==> r == Shown
  {
    if display == Shown then Hidden else Shown
  }

  /**
    * The heading's new markup: the first ▲ becomes ▼ when hiding, the first
    * ▼ becomes ▲ when showing. The markup keeps its length, and stays as it
    * is when the arrow to be replaced is absent.
    */
  function NextHeading(display: string, html: string): (r: string)
    ensures |r| == |html|
    ensures display == Shown && (forall j :: !OccursAt(html, UpArrow, j)) ==> r == html
    ensures display != Shown && (forall j :: !OccursAt(html, DownArrow, j)) ==> r == html
  {
    if display == Shown then ReplaceFirst(html, UpArrow, DownArrow)
    else ReplaceFirst(html, DownArrow, UpArrow)
  }

  /** The collapsible sections of a page: their bodies' display values and their headings' markup. */
  datatype Panels = Panels(displays: seq<string>, headings: seq<string>)

  /** The panels afterwards, and whether the handler threw a TypeError on a missing element. */
  datatype ToggleResult = ToggleResult(panels: Panels, threw: bool)

  /**
    * `toggleFAQ(index)` and `toggleTopic(index)`, which differ only in the
    * element classes they query. A missing body throws before anything
    * changes; a missing heading throws after the display has been switched.
    */
  function Toggle(p: Panels, index: int): (r: ToggleResult)
    ensures !(0 <= index < |p.displays|) ==> r == ToggleResult(p, true)
    ensures 0 <= index < |p.displays| ==>
              r.panels.displays == p.displays[index := NextDisplay(p.displays[index])]
              && (r.threw <==> index >= |p.headings|)
    ensures 0 <= index < |p.displays| && index < |p.headings| ==>
              r.panels.headings == p.headings[index := NextHeading(p.displays[index], p.headings[index])]
    ensures index >= |p.headings| ==> r.panels.headings == p.headings
  {
    if !(0 <= index < |p.displays|) then ToggleResult(p, true)
    else
      var displays := p.displays[index := NextDisplay(p.displays[index])];
      if index >= |p.headings| then ToggleResult(Panels(displays, p.headings), true)
      else
        var heading := NextHeading(p.displays[index], p.headings[index]);
        ToggleResult(Panels(displays, p.headings[index := heading]), false)
  }

  /** Toggling twice from "block" or "none" restores the display; from any other value it ends at "none". */
  lemma DisplayTwice(display: string)
    ensures NextDisplay(NextDisplay(display)) == display <==> display == Shown || display == Hidden
    ensures NextDisplay(NextDisplay(Shown)) == Shown
    ensures display != Shown && display != Hidden ==> NextDisplay(NextDisplay(display)) == Hidden
  {
  }

  /** A one-character pattern occurs exactly where that character stands. */
  lemma OccursAtChar(s: string, c: char, j: int)
    ensures OccursAt(s, [c], j) <==> 0 <= j < |s| && s[j] == c
  {
    if 0 <= j < |s| {
      assert s[j..j + 1] == [s[j]];
    }
  }

  /** A character that appears nowhere is not found. */
  lemma AbsentCharNotFound(s: string, c: char)
    requires forall k :: 0 <= k < |s| ==> s[k] != c
    ensures IndexOf(s, [c]).None?
  {
    if IndexOf(s, [c]).Some? {
      OccursAtChar(s, c, IndexOf(s, [c]).value);
    }
  }

  /** Writing `to` at the first `from` puts the first `to` there, when there was none before. */
  lemma ReplacedCharFirst(html: string, from: char, to: char, i: nat)
    requires i < |html| && html[i] == from
    requires forall k :: 0 <= k < |html| ==> html[k] != to
    ensures IndexOf(html[..i] + [to] + html[i + 1..], [to]) == Some(i)
  {
    var once := html[..i] + [to] + html[i + 1..];
    OccursAtChar(once, to, i);
    forall j | 0 <= j < i ensures !OccursAt(once, [to], j) {
      OccursAtChar(once, to, j);
      assert once[j] == html[j];
    }
  }

  /**
    * Swapping one arrow for the other and back restores markup that had no
    * arrow of the second kind: the replacement lands exactly where the first
    * arrow stood, and only there.
    */
  lemma ArrowSwapRestores(html: string, from: char, to: char)
    requires from != to
    requires forall k :: 0 <= k < |html| ==> html[k] != to
    ensures ReplaceFirst(ReplaceFirst(html, [from], [to]), [to], [from]) == html
  {
    AbsentCharNotFound(html, to);
    match IndexOf(html, [from])
    case None =>
    case Some(i) =>
      OccursAtChar(html, from, i);
      ReplacedCharFirst(html, from, to, i);
      var once := html[..i] + [to] + html[i + 1..];
      assert once[..i] + [from] + once[i + 1..] == html;
  }

  /**
    * Toggling the same section twice restores it when it starts open with no
    * ▼ in its heading, or closed with no ▲ in its heading.
    */
  lemma ToggleTwiceRestores(p: Panels, index: int)
    requires 0 <= index < |p.displays| && index < |p.headings|
    requires (p.displays[index] == Shown && !Includes(p.headings[index], DownArrow))
          || (p.displays[index] == Hidden && !Includes(p.headings[index], UpArrow))
    ensures Toggle(Toggle(p, index).panels, index) == ToggleResult(p, false)
  {
    var html := p.headings[index];
    var c := if p.displays[index] == Shown then DownArrow[0] else UpArrow[0];
    assert forall k :: 0 <= k < |html| ==> html[k] != c by {
      forall k | 0 <= k < |html| ensures html[k] != c {
        OccursAtChar(html, c, k);
        IncludesIff(html, [c]);
      }
    }
    if p.displays[index] == Shown {
      ArrowSwapRestores(html, UpArrow[0], DownArrow[0]);
    } else {
      ArrowSwapRestores(html, DownArrow[0], UpArrow[0]);
    }
    assert p.displays[index := NextDisplay(p.displays[index])][index := p.displays[index]] == p.displays;
  }
}
