/**
  * The JavaScript string operations the browser script relies on, over
  * strings of Unicode scalar values: `trim`, `toLowerCase` (ASCII letters
  * only), `includes`, `replace` with a string pattern, and `length`, which
  * counts UTF-16 code units.
  */
module JsText {
  import opened Wrappers
  import opened Strings

  /** The characters `String.prototype.trim` removes: WhiteSpace and LineTerminator. */
  predicate IsJsSpace(c: char)
  {
    c == '\t' || c == '\n' || c == '\U{000B}' || c == '\U{000C}' || c == '\r' || c == ' '
    || c == '\U{00A0}' || c == '\U{1680}' || ('\U{2000}' <= c <= '\U{200A}')
    || c == '\U{2028}' || c == '\U{2029}' || c == '\U{202F}' || c == '\U{205F}'
    || c == '\U{3000}' || c == '\U{FEFF}'
  }

  predicate AllSpace(s: string) { forall k :: 0 <= k < |s| ==> IsJsSpace(s[k]) }

  /** Index of the first character at or after `i` that is not white space (`|s|` if none). */
  function LeadEnd(s: string, i: nat): (j: nat)
    requires i <= |s|
    ensures i <= j <= |s|
    ensures forall k :: i <= k < j ==> IsJsSpace(s[k])
    ensures j < |s| ==> !IsJsSpace(s[j])
    decreases |s| - i
  {
    if i < |s| && IsJsSpace(s[i]) then LeadEnd(s, i + 1) else i
  }

  /** End of `s[lo..j]` once the white space before `j` is dropped. */
  function TailStart(s: string, lo: nat, j: nat): (m: nat)
    requires lo <= j <= |s|
    ensures lo <= m <= j
    ensures forall k :: m <= k < j ==> IsJsSpace(s[k])
    ensures lo < m ==> !IsJsSpace(s[m - 1])
    decreases j - lo
  {
    if lo < j && IsJsSpace(s[j - 1]) then TailStart(s, lo, j - 1) else j
  }

  /**
    * `trim()`: empty exactly when `s` is all white space; otherwise the
    * substring of `s` starting at `LeadEnd(s, 0)` left after dropping the
    * white space at both ends: everything dropped before and after it is
    * white space, and it starts and ends with a character that is not.
    */
  function Trim(s: string): (r: string)
    ensures r == [] <==> AllSpace(s)
    ensures r != [] ==> !IsJsSpace(r[0]) && !IsJsSpace(r[|r| - 1])
    ensures OccursAt(s, r, LeadEnd(s, 0))
    ensures forall k :: 0 <= k < LeadEnd(s, 0) ==> IsJsSpace(s[k])
    ensures forall k :: LeadEnd(s, 0) + |r| <= k < |s| ==> IsJsSpace(s[k])
  {
    s[LeadEnd(s, 0)..TailStart(s, LeadEnd(s, 0), |s|)]
  }

  /** `toLowerCase()` restricted to ASCII: `A`-`Z` become `a`-`z`, everything else stays. */
  function LowerChar(c: char): char
  {
    if 'A' <= c <= 'Z' then (c as int + 32) as char else c
  }

  function AsciiLower(s: string): (r: string)
    ensures |r| == |s|
    ensures forall k :: 0 <= k < |s| ==> r[k] == LowerChar(s[k])
  {
    if s == [] then [] else [LowerChar(s[0])] + AsciiLower(s[1..])
  }

  /** `w` occurs in `s` starting at position `i`. */
  predicate OccursAt(s: string, w: string, i: int)
  {
    0 <= i && i + |w| <= |s| && s[i..i + |w|] == w
  }

  /** `s.includes(w)`, scanning from the left. */
  function Includes(s: string, w: string): bool
  {
    StartsWith(s, w) || (|s| > 0 && Includes(s[1..], w))
  }

  /** `includes` holds exactly when the word occurs at some position. */
  lemma {:induction false} IncludesIff(s: string, w: string)
    ensures Includes(s, w) <==> exists i :: OccursAt(s, w, i)
  {
    if exists i :: OccursAt(s, w, i) {
      var i :| OccursAt(s, w, i);
      IncludesFrom(s, w, i);
    }
    if Includes(s, w) {
      if StartsWith(s, w) {
        assert OccursAt(s, w, 0);
      } else {
        IncludesIff(s[1..], w);
        var i :| OccursAt(s[1..], w, i);
        assert s[1..][i..i + |w|] == s[i + 1..i + 1 + |w|];
        assert OccursAt(s, w, i + 1);
      }
    }
  }

  lemma {:induction false} IncludesFrom(s: string, w: string, i: int)
    requires OccursAt(s, w, i)
    ensures Includes(s, w)
    decreases i
  {
    if i > 0 {
      assert s[1..][i - 1..i - 1 + |w|] == s[i..i + |w|];
      IncludesFrom(s[1..], w, i - 1);
    } else {
      assert s[..|w|] == s[0..0 + |w|];
    }
  }

  /** The text placed between `a` and `b` is found in the result. */
  lemma IncludesMiddle(a: string, w: string, b: string)
    ensures Includes(a + w + b, w)
  {
    var s := a + w + b;
    assert s[|a|..|a| + |w|] == w;
    IncludesFrom(s, w, |a|);
  }

  /** Position of the first occurrence of `w` in `s`, if any. */
  function IndexOf(s: string, w: string): (r: Option<nat>)
    ensures r.Some? ==> OccursAt(s, w, r.value)
    ensures r.Some? ==> forall j :: 0 <= j < r.value ==> !OccursAt(s, w, j)
    ensures r.None? ==> forall j :: !OccursAt(s, w, j)
  {
    if StartsWith(s, w) then Some(0)
    else if |s| == 0 then None
    else
      var rest := IndexOf(s[1..], w);
      ShiftOccurrence(s, w);
      if rest.Some? then Some(rest.value + 1) else None
  }

  /** An occurrence past position 0 is an occurrence in the tail, one place earlier. */
  lemma ShiftOccurrence(s: string, w: string)
    requires |s| > 0
    ensures forall j :: 1 <= j ==> (OccursAt(s, w, j) <==> OccursAt(s[1..], w, j - 1))
  {
    forall j | 1 <= j
      ensures OccursAt(s, w, j) <==> OccursAt(s[1..], w, j - 1)
    {
      if j + |w| <= |s| {
        assert s[1..][j - 1..j - 1 + |w|] == s[j..j + |w|];
      }
    }
  }

  /**
    * `s.replace(pattern, replacement)` with a string pattern: only the first
    * occurrence is replaced, and `s` is unchanged when there is none. The
    * replacement is inserted literally; JavaScript would expand `$&`, `` $` ``,
    * `$'` and `$$` in it, which the script's replacements (single arrow
    * characters) never contain.
    */
  function ReplaceFirst(s: string, pattern: string, replacement: string): (r: string)
    ensures (forall j :: !OccursAt(s, pattern, j)) ==> r == s
    ensures forall i :: OccursAt(s, pattern, i) && (forall j :: 0 <= j < i ==> !OccursAt(s, pattern, j))
                        ==> r == s[..i] + replacement + s[i + |pattern|..]
    ensures |replacement| == |pattern| ==> |r| == |s|
  {
    FirstOccurrenceFound(s, pattern);
    match IndexOf(s, pattern)
    case None => s
    case Some(i) => s[..i] + replacement + s[i + |pattern|..]
  }

  /** An occurrence with none before it is the one `IndexOf` finds. */
  lemma FirstOccurrenceFound(s: string, w: string)
    ensures forall i :: OccursAt(s, w, i) && (forall j :: 0 <= j < i ==> !OccursAt(s, w, j))
                        ==> IndexOf(s, w) == Some(i)
  {
    forall i | OccursAt(s, w, i) && (forall j :: 0 <= j < i ==> !OccursAt(s, w, j))
      ensures IndexOf(s, w) == Some(i)
    {
      var found := IndexOf(s, w);
      assert found.Some?;
      assert !(found.value < i);
      assert !(i < found.value);
    }
  }

  /** `length`: characters outside the Basic Multilingual Plane count as two code units. */
  function Utf16Length(s: string): (n: nat)
    ensures n >= |s|
  {
    if s == [] then 0 else (if s[0] as int > 0xFFFF then 2 else 1) + Utf16Length(s[1..])
  }

  /** For text within the Basic Multilingual Plane the two lengths agree. */
  lemma {:induction false} Utf16LengthBmp(s: string)
    requires forall k :: 0 <= k < |s| ==> s[k] as int <= 0xFFFF
    ensures Utf16Length(s) == |s|
  {
    if s != [] {
      Utf16LengthBmp(s[1..]);
    }
  }
}
