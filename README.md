# Quiz, suggestion form and page scripts of the honours AI website, in Dafny

The website is a Reflex application that is almost entirely page layout.
This project models the parts that carry rules, and proves properties of them:

* **Quiz session** (class `State` of `diss_website.py`). It holds five answer slots and a fixed answer key. Its `onload` handler would reset the slots, but no page registers it (none of the `add_page` calls at diss_website.py:2382-2389 passes `on_load`), so answers carry over between visits to the quiz page; `Quiz.State.OnLoad` models the handler as written. Each radio group writes one slot. `submit` counts exact matches and stores the truncated percentage. `percent_score` shows that score as `"<n>%"`. `set_color_mode` stores the selected theme. The model is the class `Quiz.State`. Scoring is specified by `Quiz.Matches` and `Quiz.ScoreOf`.
* **Suggestion form** (class `ContactFormState`). `handle_submit` formats five fields into a plain-text body. It addresses the message from and to the site's mailbox and hands it to the mail relay. Then it sets `status` from the outcome. The relay session is an input of type `Suggestion.Outcome`: `Sent` or `Failed(detail)`. Parsers for the body and the status text (`ParseBody`, `ParseStatus`) show that the status keeps the outcome, and that the body keeps all five fields whenever the four one-line fields hold no line break. The details, typed into a multi-line text area, may hold anything.
* **Navigation chrome**: the banner's hide toggle, and the item sequence of `breadcrumb_trail` (module `Layout`).
* **Browser script** (`CV_refinement/script.js`, module `ClientScript` over the string operations in `JsText`): the contact-form check, the text generator, the keyword sentiment classifier, the one-question quiz, the 500-character counter, and the FAQ/topic show-hide toggles. Each handler becomes a function or method from its inputs (field values, the index it is called with, the random pick) to what it writes (text, colour, a reset).

Integers are unbounded. Python's `int` is unbounded too, and no JavaScript number here comes near 2^53. Strings are sequences of Unicode scalar values. Where the script counts UTF-16 code units (`length`), `JsText.Utf16Length` counts them explicitly.

Notes on the code's behaviour:
* `set_answers` accepts negative indices (Python counts them from the end) and raises only outside -5..4.
* `submit` truncates the percentage with `int(...)`; it does not round.
* The body's third label reads "Suggested Change or Addition:".

## Model

| member | source | states |
|---|---|---|
| Quiz.State.constructor | diss_website.py:276-320 | the session starts with five unanswered slots, score 0 and the light colour mode |
| Quiz.State.OnLoad | diss_website.py:289-290 | after the handler (which no page registers) there are exactly five slots and every one is unanswered; score and colour mode are untouched |
| Quiz.State.SetAnswers | diss_website.py:293-295 | an index in -len..len-1 writes the answer into that slot (negative counts from the end) and leaves every other slot and the length unchanged; any other index raises and changes nothing |
| Quiz.CountCorrect | diss_website.py:301-305 | the counting loop visits every slot in order: total is the number of slots, correct the number of slots equal to the key entry (exact equality, unanswered never equal) |
| Quiz.State.Submit | diss_website.py:300-311 | the score becomes ScoreOf(matches, slots), i.e. floor of 100 times the matches divided by the slots, or 0 with no slots; it always lies in 0..100; the answers are not modified |
| Quiz.Matches | diss_website.py:302-305 | the count of slots equal to their key entry never exceeds the number of slots |
| Quiz.MatchesAllIff | diss_website.py:302-305 | the match count equals the number of slots exactly when every slot holds its key entry |
| Quiz.MatchesNoneIff | diss_website.py:302-305 | the match count is zero exactly when no slot holds its key entry |
| Quiz.ScoreOf | diss_website.py:307-311 | no slots score 0; otherwise the score is the largest whole percentage not above correct/total (truncation, as `int(...)` of a non-negative value), and with no more matches than slots it lies in 0..100 |
| Quiz.ScoreOfFive | diss_website.py:311 | with five questions, k correct answers score exactly 20k (0, 20, 40, 60, 80, 100) |
| Quiz.AllCorrectScoresHundred | diss_website.py:300-311 | five slots that all hold their key entries score 100 |
| Quiz.AllWrongScoresZero | diss_website.py:300-311 | five slots none of which holds its key entry (wrong or unanswered) score 0 |
| Quiz.DefaultAnswersScoreZero | diss_website.py:277 | submitting the freshly reset vector scores 0 |
| Quiz.PercentText | diss_website.py:318 | the percentage text ends in one '%' and the text before it reads back as the score |
| Quiz.State.PercentScore | diss_website.py:316-318 | `percent_score` is the score's decimal text followed by '%' |
| Decimal.NatToString | diss_website.py:318 | a natural's text is non-empty, all decimal digits, with no leading zero |
| Decimal.IntToString | diss_website.py:318 | an integer's text starts with '-' exactly when it is negative, and the rest is a non-empty digit string with no leading zero |
| Decimal.IntToStringRoundTrip | diss_website.py:318 | parsing the decimal text of an integer gives the integer back |
| Decimal.IntToStringInjective | diss_website.py:318 | distinct scores have distinct texts |
| Quiz.SelectedMode | diss_website.py:323-327 | a string argument is kept unchanged, a non-empty list gives its first element, and only an empty list gives nothing |
| Quiz.State.SetColorMode | diss_website.py:323-327 | the colour mode becomes the selected mode; indexing an empty list raises and leaves the mode unchanged |
| Suggestion.Body | diss_website.py:125-131 | the body is the triple-quoted template: leading newline, five 8-space-indented labelled lines, closing indentation |
| Suggestion.BodyRoundTrip | diss_website.py:125-131 | the body lists name, email, suggested change, priority level (`contact`) and details (`issue`) in that order; when name, email, suggested change and priority hold no line break, all five read back from it, whatever the details contain |
| Suggestion.ParseBodySound | diss_website.py:125-131 | any text the body parser accepts is exactly the body of the fields it returns, so reading back loses nothing |
| Suggestion.Compose | diss_website.py:133-138 | From and To are both the service address; the subject is "New Website Suggestion: " followed by the subject field; the text part is the body |
| Suggestion.StatusText | diss_website.py:146-148 | the status is the success message exactly when the relay succeeded; a failure's status is the failure prefix followed by the detail |
| Suggestion.StatusRoundTrip | diss_website.py:146-148 | success and each failure give distinct status texts, and the failure detail reads back from its text |
| Suggestion.ContactFormState.constructor | diss_website.py:114-120 | all five fields and the status start empty |
| Suggestion.ContactFormState.HandleSubmit | diss_website.py:123-148 | the message handed to the relay is Compose of the current fields; the status is replaced by exactly "Suggestion submitted successfully!" on success or "Failed to submit suggestion: " + detail on failure; the five fields are unchanged |
| Layout.TopBannerBasic.constructor | diss_website.py:18 | the banner starts visible |
| Layout.TopBannerBasic.Toggle | diss_website.py:22-23 | toggling flips the hidden flag |
| Layout.CrumbItem | diss_website.py:221-237 | a crumb renders as a link exactly when its href is non-empty, otherwise as the current-page label |
| Layout.BreadcrumbItems | diss_website.py:220-240 | n crumbs give 2n-1 items (none for none), crumb j at position 2j, and separators exactly at the odd positions, so only between crumbs |
| JsText.Trim | CV_refinement/script.js:25-27 | `trim()` is empty exactly when the text is all ECMAScript white space or line terminators; otherwise it is the substring that starts and ends with a character that is not such a character, and everything dropped before and after it is white space |
| JsText.AsciiLower | CV_refinement/script.js:89 | lower-casing keeps the length and maps each character, A-Z to a-z |
| JsText.IncludesIff | CV_refinement/script.js:89 | `includes` holds exactly when the word occurs at some position |
| JsText.IndexOf | CV_refinement/script.js:116 | the position found is an occurrence with none earlier; none is found only when there is no occurrence |
| JsText.ReplaceFirst | CV_refinement/script.js:116-134 | `replace` with a string pattern leaves the text unchanged when the pattern does not occur; otherwise the result is the text before the first occurrence, then the replacement, then the text after that occurrence; a replacement as long as the pattern keeps the length. The replacement is inserted literally (no `$` patterns), which is exact for the arrow characters the script passes |
| JsText.Utf16Length | CV_refinement/script.js:198 | `length` counts code units, never fewer than the characters |
| JsText.Utf16LengthBmp | CV_refinement/script.js:198 | for text within the Basic Multilingual Plane the code-unit count is the character count |
| ClientScript.ContactSubmit | CV_refinement/script.js:25-40 | the form is reset exactly when the trimmed name, email and message are all non-empty, with the green thank-you; otherwise the red "Please fill in all fields." |
| ClientScript.Responses | CV_refinement/script.js:59-63 | three responses, each opening with its fixed phrase and holding the topic right after it |
| ClientScript.ResponsesMentionTopic | CV_refinement/script.js:59-63 | each of the three templates contains the topic |
| ClientScript.GenerateText | CV_refinement/script.js:48-67 | blank input gives the red "Please enter a topic!"; otherwise the picked template about the trimmed input, in green, which contains the trimmed input |
| ClientScript.ClassifyCases | CV_refinement/script.js:85-105 | any negative word gives Negative/red, even beside a positive word; Positive/green exactly when a positive word and no negative word occur; Neutral/gray exactly when neither occurs; the text starts "Sentiment: " |
| ClientScript.AnalyzeSentiment | CV_refinement/script.js:71-79 | blank input gives the red "Please enter a sentence!" without classifying; otherwise the verdict is Classify of the lower-cased trimmed input |
| ClientScript.KeywordVerdict | CV_refinement/script.js:82-105 | the positive loop and then the negative loop, each stopping at its first hit and the second overwriting the first, yield exactly Classify of the text |
| ClientScript.CheckAnswer | CV_refinement/script.js:151-158 | the "Correct!" text exactly when the answer is "A", the "Incorrect." text for every other value |
| ClientScript.CharCounter | CV_refinement/script.js:197-205 | the counter reads the code-unit count followed by "/500", and is red exactly when the count exceeds 500, grey (#666) otherwise |
| ClientScript.NextDisplay | CV_refinement/script.js:114-118 | "block" becomes "none" and every other value becomes "block" |
| ClientScript.NextHeading | CV_refinement/script.js:116-134 | the heading markup keeps its length, and stays as it is when the arrow to be swapped (▲ when hiding, ▼ when showing) is absent |
| ClientScript.Toggle | CV_refinement/script.js:110-121 | for toggleFAQ and toggleTopic, only the indexed section's display switches and only its heading's arrow is swapped; a missing section throws first and changes nothing, and a missing heading throws after the display switch |
| ClientScript.DisplayTwice | CV_refinement/script.js:114-118 | two toggles restore the display exactly when it was "block" or "none"; from "block" they return to "block", and from any other value (such as the initial empty inline style) they end at "none" |
| ClientScript.ArrowSwapRestores | CV_refinement/script.js:116-119 | replacing the first ▲ by ▼ and then the first ▼ by ▲ (or the reverse) restores markup that had no arrow of the second kind |
| ClientScript.ToggleTwiceRestores | CV_refinement/script.js:110-121 | toggling a section twice restores it when it starts open with no ▼, or closed with no ▲, in its heading |

## Left out

- The mail relay session (connect to the server, STARTTLS, login, send, close; diss_website.py:142-145) is network I/O. Its result is the `Outcome` parameter of `HandleSubmit`, and an exception's text is the `Failed` detail.
- The server name, port and account credentials (diss_website.py:107-110) are configuration. Only the mailbox address is used, as sender and recipient.
- Suggestion.BodyRoundTrip: requires that name, email, suggested change and priority hold no line break. Those four come from one-line `rx.input` elements and a Low/Medium/High `rx.select` (diss_website.py:2069-2101), whose values cannot contain one. A line break in one of them would shift the labelled lines, and the body could not be told apart from another one. The details come from a text area (diss_website.py:2106-2111) and are read back whatever they hold.
- MIME encoding of the message is left out. The model keeps only the From, To and Subject headers and the plain-text part.
- The redirect to the results page after `submit` is navigation, and is left out.
- The results page's two answer comparisons (diss_website.py:565 and 639) are display templating and are left out. The score comes only from `submit`.
- `set_answers` with a `sub_index` (diss_website.py:297) is left out because no caller passes one. Answers are modelled as strings, which is what the radio groups send.
- The class-level `default_answers` list, shared by reference, is Reflex state handling. `OnLoad` gives a fresh vector of five unanswered slots, as the unregistered handler would.
- Quiz.State.Submit: requires at most five slots, because a longer vector would make the key lookup raise IndexError. No caller can make the vector longer.
- Quiz.State.Submit: uses integer division where the source computes `int(correct / total * 100)` in floating point. For five questions, k/5*100 rounds to the integer 20k in double precision, so the two agree.
- The setters Reflex generates for the five form fields only assign a field, and are left out.
- All Reflex component trees, styles, pages and routes are presentation, and are left out.
- The browser script's DOM lookups, `alert`, `localStorage`, and the dark-mode, colour-blind and contrast toggles are browser I/O, and are left out. So are `startLearning` (defined twice, at CV_refinement/script.js:2 and 161) and `startPersonalizedPath`, the two `window.onload` assignments and the e-mail `checkValidity` listener.
- ClientScript.ContactSubmit: describes only the first submit listener (CV_refinement/script.js:22-40). A second listener on the same form (CV_refinement/script.js:212-238) runs on every submit, whatever the first decided: 2 s later it resets the form, sets the counter to "0/500" and writes "Message sent successfully!" into `form-message`, and it shows a spinner in the meantime. That listener is timer-driven and is left out, so "reset exactly when all fields are filled" holds for the first listener alone.
- GenerateText: `Math.random` is the `pick` argument, restricted to 0..2 as `Math.floor(Math.random() * 3)` always is.
- ClientScript.AnalyzeSentiment: lower-cases ASCII letters only, where `toLowerCase` folds all of Unicode. The only non-ASCII characters that fold to ASCII letters are U+0130 (to "i" plus a combining dot) and U+212A (to "k"). Neither can complete one of the ten keywords, so the classification is the same.
- JavaScript strings are UTF-16. Lone surrogates cannot appear in a Dafny string, so they are not modelled.
- ClientScript.Toggle: works on the headings' markup as a string. It does not model how the browser serialises and re-parses `innerHTML`.
