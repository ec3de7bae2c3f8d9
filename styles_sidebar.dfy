/**
 * Helpers of the styles sidebar (`StylesSidebarPane.js`):
 * - stepping a hex colour component with the arrow and page keys;
 * - stripping a vendor prefix from a property name;
 * - deciding whether a typed ';' ends a value or sits inside a quoted string;
 * - marking, rule by rule, the properties that are in effect and those that are overloaded.
 */
module StylesSidebar {
  import opened JsRuntime

  // ---------------------------------------------------------------- hex stepping

  /** The value of a hexadecimal digit of either case. */
  function HexDigitValue(c: char): Option<nat>
  {
    if '0' <= c <= '9' then Some(c as int - '0' as int)
    else if 'a' <= c <= 'f' then Some(c as int - 'a' as int + 10)
    else if 'A' <= c <= 'F' then Some(c as int - 'A' as int + 10)
    else None
  }

  predicate IsHexDigit(c: char)
  {
    HexDigitValue(c).Some?
  }

  predicate AllHex(s: string)
  {
    forall i :: 0 <= i < |s| ==> IsHexDigit(s[i])
  }

  /** The value of a string of hexadecimal digits. */
  function HexValue(s: string): nat
    requires AllHex(s)
  {
    if s == [] then 0
    else
      assert IsHexDigit(s[|s| - 1]);
      16 * HexValue(s[..|s| - 1]) + HexDigitValue(s[|s| - 1]).value
  }

  /** The length of the longest prefix of hexadecimal digits. */
  function HexRunLength(s: string): (k: nat)
    ensures k <= |s| && AllHex(s[..k])
    ensures k < |s| ==> !IsHexDigit(s[k])
  {
    if s == [] || !IsHexDigit(s[0]) then 0
    else
      var k := 1 + HexRunLength(s[1..]);
      assert s[..k] == [s[0]] + s[1..][..k - 1];
      k
  }

  /**
   * `parseInt(s, 16)`: leading white space, an optional sign and an optional
   * "0x"/"0X" are skipped, then the longest run of hex digits is read; `None` is
   * NaN (no digit at all).
   */
  function ParseIntHex(s: string): Option<int>
  {
    var t := TrimStart(s);
    var negative := t != [] && t[0] == '-';
    var unsigned := if t != [] && (t[0] == '-' || t[0] == '+') then t[1..] else t;
    var digits :=
      if |unsigned| >= 2 && unsigned[0] == '0' && (unsigned[1] == 'x' || unsigned[1] == 'X') then unsigned[2..]
      else unsigned;
    var k := HexRunLength(digits);
    var magnitude: int := HexValue(digits[..k]);
    if k == 0 then None else Some(if negative then -magnitude else magnitude)
  }

  /** A string that parses has at least one character. */
  lemma ParsedNotEmpty(s: string)
    requires ParseIntHex(s).Some?
    ensures |s| >= 1
  {
  }

  function Pow16(n: nat): (p: nat)
    ensures p >= 1
  {
    if n == 0 then 1 else 16 * Pow16(n - 1)
  }

  /** The step a key applies: ±1 for Up/Down, ±16 otherwise (PageUp/PageDown), times 16 with Shift. */
  function Delta(keyIdentifier: string, shiftKey: bool): int
  {
    var base :=
      if keyIdentifier == "Up" || keyIdentifier == "Down" then (if keyIdentifier == "Up" then 1 else -1)
      else (if keyIdentifier == "PageUp" then 16 else -16);
    if shiftKey then base * 16 else base
  }

  predicate IsUpperHexDigit(c: char)
  {
    '0' <= c <= '9' || 'A' <= c <= 'F'
  }

  /** The upper-case hex digit for `d`. */
  function UpperDigit(d: nat): (c: char)
    requires d < 16
    ensures IsUpperHexDigit(c) && HexDigitValue(c) == Some(d)
  {
    if d < 10 then ('0' as int + d) as char else ('A' as int + d - 10) as char
  }

  /** `n.toString(16).toUpperCase()`. */
  function UpperHex(n: nat): (s: string)
    ensures |s| >= 1 && forall i :: 0 <= i < |s| ==> IsUpperHexDigit(s[i]) && IsHexDigit(s[i])
    decreases n
  {
    if n < 16 then [UpperDigit(n)]
    else UpperHex(n / 16) + [UpperDigit(n % 16)]
  }

  function Zeros(k: nat): (s: string)
    ensures |s| == k && forall i :: 0 <= i < k ==> s[i] == '0'
  {
    if k == 0 then [] else "0" + Zeros(k - 1)
  }

  /** Reading the upper-case hex digits back gives the number. */
  lemma {:induction false} UpperHexValue(n: nat)
    ensures AllHex(UpperHex(n)) && HexValue(UpperHex(n)) == n
    decreases n
  {
    var s := UpperHex(n);
    if n >= 16 {
      UpperHexValue(n / 16);
      assert s[..|s| - 1] == UpperHex(n / 16);
    }
  }

  /** A number below 16^len has at most `len` hex digits. */
  lemma {:induction false} UpperHexLength(n: nat, len: nat)
    requires 1 <= len && n < Pow16(len)
    ensures |UpperHex(n)| <= len
    decreases n
  {
    if n >= 16 {
      assert Pow16(1) == 16;
      assert len >= 2;
      assert n / 16 < Pow16(len - 1);
      UpperHexLength(n / 16, len - 1);
    }
  }

  /** The padded result: upper-case hex digits that read back as `n`. */
  lemma PaddedHex(k: nat, n: nat)
    ensures AllHex(Zeros(k) + UpperHex(n)) && HexValue(Zeros(k) + UpperHex(n)) == n
    ensures forall i :: 0 <= i < |Zeros(k) + UpperHex(n)| ==> IsUpperHexDigit((Zeros(k) + UpperHex(n))[i])
  {
    var z, d := Zeros(k), UpperHex(n);
    UpperHexValue(n);
    ZerosValue(k, d);
    forall i | 0 <= i < |z + d|
      ensures IsUpperHexDigit((z + d)[i])
    {
      if i < k { assert (z + d)[i] == '0'; } else { assert (z + d)[i] == d[i - k]; }
    }
  }

  /** Leading zeros do not change a hex value. */
  lemma {:induction false} ZerosValue(k: nat, s: string)
    requires AllHex(s)
    ensures AllHex(Zeros(k) + s) && HexValue(Zeros(k) + s) == HexValue(s)
    decreases |s|
  {
    var z := Zeros(k) + s;
    assert AllHex(z) by {
      forall i | 0 <= i < |z|
        ensures IsHexDigit(z[i])
      {
        if i < k { assert z[i] == '0'; } else { assert z[i] == s[i - k]; }
      }
    }
    if s == [] {
      assert z == Zeros(k);
      ZerosOnly(k);
    } else {
      ZerosValue(k, s[..|s| - 1]);
      assert z[..|z| - 1] == Zeros(k) + s[..|s| - 1];
    }
  }

  lemma {:induction false} ZerosOnly(k: nat)
    ensures AllHex(Zeros(k)) && HexValue(Zeros(k)) == 0
    decreases k
  {
    if k > 0 {
      ZerosOnly(k - 1);
      var z := Zeros(k);
      assert z[..k - 1] == Zeros(k - 1);
    }
  }

  /**
   * `alteredHexNumber`: a string that does not parse comes back unchanged, as does
   * a result above 16^len - 1; otherwise the stepped value, clamped at 0, in
   * upper-case hex zero-padded to the input's length.
   */
  method AlteredHexNumber(hexString: string, keyIdentifier: string, shiftKey: bool) returns (r: string)
    ensures ParseIntHex(hexString).None? ==> r == hexString
    ensures ParseIntHex(hexString).Some? ==>
              var stepped := ParseIntHex(hexString).value + Delta(keyIdentifier, shiftKey);
              if stepped > Pow16(|hexString|) - 1 then r == hexString
              else |r| == |hexString| && (forall i :: 0 <= i < |r| ==> IsUpperHexDigit(r[i])) &&
                   AllHex(r) && HexValue(r) == (if stepped < 0 then 0 else stepped)
  {
    var parsed := ParseIntHex(hexString);
    if parsed.None? {
      return hexString;
    }
    var number := parsed.value;
    var maxValue := Pow16(|hexString|) - 1;
    var arrowKeyPressed := keyIdentifier == "Up" || keyIdentifier == "Down";
    var delta;
    if arrowKeyPressed {
      delta := if keyIdentifier == "Up" then 1 else -1;
    } else {
      delta := if keyIdentifier == "PageUp" then 16 else -16;
    }
    if shiftKey {
      delta := delta * 16;
    }
    var result := number + delta;
    if result < 0 {
      result := 0;
    } else if result > maxValue {
      return hexString;
    }
    ParsedNotEmpty(hexString);
    r := PaddedUpperHex(result, |hexString|);
  }

  /** `result.toString(16).toUpperCase()` with "0"s put in front until it is `len` long. */
  method PaddedUpperHex(result: nat, len: nat) returns (resultString: string)
    requires 1 <= len && result <= Pow16(len) - 1
    ensures |resultString| == len && forall i :: 0 <= i < len ==> IsUpperHexDigit(resultString[i])
    ensures AllHex(resultString) && HexValue(resultString) == result
  {
    var digits := UpperHex(result);
    UpperHexLength(result, len);
    resultString := digits;
    var i, lengthDelta := 0, len - |digits|;
    while i < lengthDelta
      invariant 0 <= i <= lengthDelta
      invariant resultString == Zeros(i) + digits
    {
      resultString := "0" + resultString;
      i := i + 1;
    }
    PaddedHex(i, result);
  }

  // ---------------------------------------------------------------- vendor prefixes

  /** The length of the vendor prefix ("-webkit-", "-khtml-" or "-apple-") at `i`, or 0. */
  function PrefixLengthAt(name: string, i: nat): nat
  {
    if OccursAt(name, "-webkit-", i) then 8
    else if OccursAt(name, "-khtml-", i) then 7
    else if OccursAt(name, "-apple-", i) then 7
    else 0
  }

  /** The pattern `(?:-webkit-|-khtml-|-apple-)(.+)` matches at `i`: a prefix followed by a character `.` accepts. */
  predicate MatchesAt(name: string, i: nat)
  {
    var k := PrefixLengthAt(name, i);
    k > 0 && i + k < |name| && !IsLineTerminator(name[i + k])
  }

  /** The leftmost position at or after `from` where the pattern matches, or -1. */
  function FirstMatch(name: string, from: nat): (i: int)
    requires from <= |name|
    ensures i == -1 || (from <= i < |name| && MatchesAt(name, i))
    ensures forall j :: from <= j && (i == -1 || j < i) ==> !MatchesAt(name, j)
    decreases |name| - from
  {
    if from == |name| then
      assert forall j :: from <= j ==> PrefixLengthAt(name, j) == 0;
      -1
    else if MatchesAt(name, from) then from
    else FirstMatch(name, from + 1)
  }

  /** Where the greedy `.+` starting at `k` stops: the next line terminator, or the end. */
  function LineEnd(name: string, k: nat): (e: nat)
    requires k <= |name|
    ensures k <= e <= |name| && (e < |name| ==> IsLineTerminator(name[e]))
    ensures forall j :: k <= j < e ==> !IsLineTerminator(name[j])
    decreases |name| - k
  {
    if k == |name| || IsLineTerminator(name[k]) then k else LineEnd(name, k + 1)
  }

  /**
   * `canonicalPropertyName`: a short name (under 9 characters), one not starting
   * with '-', or one where no vendor prefix is followed by a character comes back
   * unchanged; otherwise the text after the leftmost vendor prefix (up to a line
   * terminator), a non-empty proper part of the name.
   */
  function CanonicalPropertyName(name: string): (r: string)
    ensures |name| < 9 || name[0] != '-' ==> r == name
    ensures (forall i :: 0 <= i ==> !MatchesAt(name, i)) ==> r == name
    ensures r != name ==>
              (1 <= |r| < |name| &&
               exists i :: 0 <= i < |name| && MatchesAt(name, i) &&
                           r == name[i + PrefixLengthAt(name, i)..LineEnd(name, i + PrefixLengthAt(name, i))])
  {
    if name == [] || |name| < 9 || name[0] != '-' then name
    else
      var i := FirstMatch(name, 0);
      if i < 0 then name
      else
        var k := i + PrefixLengthAt(name, i);
        name[k..LineEnd(name, k)]
  }

  /**
   * The match taken is the leftmost one: a long name starting with '-' whose
   * leftmost match is at `i` gives the text after the prefix at `i`, up to the
   * first line terminator, and that is never the name itself.
   */
  lemma CanonicalIsLeftmost(name: string, i: nat)
    requires |name| >= 9 && name[0] == '-'
    requires i < |name| && MatchesAt(name, i)
    requires forall j :: 0 <= j < i ==> !MatchesAt(name, j)
    ensures var k := i + PrefixLengthAt(name, i);
            CanonicalPropertyName(name) == name[k..LineEnd(name, k)] && CanonicalPropertyName(name) != name
  {
    assert FirstMatch(name, 0) == i;
  }

  /** Stripping a vendor prefix: the prefixed name gives back the bare name. */
  lemma CanonicalOfPrefixed(prefix: string, bare: string)
    requires prefix == "-webkit-" || prefix == "-khtml-" || prefix == "-apple-"
    requires bare != [] && |prefix + bare| >= 9
    requires forall j :: 0 <= j < |bare| ==> !IsLineTerminator(bare[j])
    ensures CanonicalPropertyName(prefix + bare) == bare
  {
    var name := prefix + bare;
    assert name[..|prefix|] == prefix;
    PrefixLengthAtStart(name, prefix);
    assert name[|prefix|] == bare[0];
    assert MatchesAt(name, 0);
    assert FirstMatch(name, 0) == 0;
    LineEndAll(name, |prefix|);
    assert name[|prefix|..] == bare;
  }

  /** A name that starts with a vendor prefix has that prefix's length at 0. */
  lemma PrefixLengthAtStart(name: string, prefix: string)
    requires prefix == "-webkit-" || prefix == "-khtml-" || prefix == "-apple-"
    requires |prefix| <= |name| && name[..|prefix|] == prefix
    ensures PrefixLengthAt(name, 0) == |prefix|
  {
    assert name[1] == prefix[1];
    assert OccursAt(name, prefix, 0) by {
      assert name[0..|prefix|] == name[..|prefix|];
    }
    assert OccursAt(name, "-webkit-", 0) ==> name[1] == 'w' by {
      if OccursAt(name, "-webkit-", 0) { assert name[0..8][1] == name[1]; }
    }
    assert OccursAt(name, "-khtml-", 0) ==> name[1] == 'k' by {
      if OccursAt(name, "-khtml-", 0) { assert name[0..7][1] == name[1]; }
    }
  }

  lemma LineEndAll(name: string, k: nat)
    requires k <= |name|
    requires forall j :: k <= j < |name| ==> !IsLineTerminator(name[j])
    ensures LineEnd(name, k) == |name|
  {
  }

  // ---------------------------------------------------------------- quotes before the cursor

  /** Where the scan stands: outside strings, inside a string opened by `quote`, or just after a backslash in one. */
  datatype QuoteState = Closed | InString(quote: char) | Escaped(quote: char)

  /** One character of the scan; `None` is a position past the end of the text (`text[i]` is undefined). */
  function QuoteStep(st: QuoteState, ch: Option<char>): QuoteState
  {
    match st
    case Closed => if ch == Some('"') || ch == Some('\'') then InString(ch.value) else Closed
    case InString(q) => if ch == Some('\\') then Escaped(q) else if ch == Some(q) then Closed else st
    case Escaped(q) => InString(q)
  }

  /** The state after scanning `chars` one by one. */
  function QuoteRun(st: QuoteState, chars: seq<Option<char>>): QuoteState
  {
    if chars == [] then st else QuoteStep(QuoteRun(st, chars[..|chars| - 1]), chars[|chars| - 1])
  }

  /** The characters before the cursor. */
  function CharsBefore(text: string, cursorPosition: int): (cs: seq<Option<char>>)
    ensures |cs| == if cursorPosition < 0 then 0 else cursorPosition
  {
    seq(if cursorPosition < 0 then 0 else cursorPosition, i requires 0 <= i => if i < |text| then Some(text[i]) else None)
  }

  function StateOf(openQuote: Option<char>): QuoteState
  {
    if openQuote.Some? then InString(openQuote.value) else Closed
  }

  /**
   * The inner `shouldCommitValueSemicolon`: true exactly when the character-by-
   * character quote scan of the text before the cursor ends outside any string.
   */
  method ShouldCommitValueSemicolon(text: string, cursorPosition: int) returns (r: bool)
    ensures r <==> QuoteRun(Closed, CharsBefore(text, cursorPosition)) == Closed
  {
    ghost var chars := CharsBefore(text, cursorPosition);
    ghost var n := |chars|;
    var openQuote: Option<char> := None;
    var i := 0;
    while i < cursorPosition
      invariant 0 <= i
      invariant i <= n ==> StateOf(openQuote) == QuoteRun(Closed, chars[..i])
      invariant i > n ==> i == n + 1 && openQuote.Some? && QuoteRun(Closed, chars) == Escaped(openQuote.value)
      decreases cursorPosition - i
    {
      var ch := if i < |text| then Some(text[i]) else None;
      assert chars[..i + 1][..i] == chars[..i] && chars[i] == ch;
      if ch == Some('\\') && openQuote.Some? {
        if i + 1 < cursorPosition {
          assert chars[..i + 2][..i + 1] == chars[..i + 1];
        } else {
          assert chars[..i + 1] == chars;
        }
        i := i + 1;
      } else if openQuote.None? && (ch == Some('"') || ch == Some('\'')) {
        openQuote := ch;
      } else if openQuote.Some? && ch == openQuote {
        openQuote := None;
      }
      i := i + 1;
    }
    if i <= n {
      assert chars[..i] == chars;
    }
    r := openQuote.None?;
  }

  /** Scanning a concatenation scans the parts in turn. */
  lemma {:induction false} QuoteRunAppend(st: QuoteState, a: seq<Option<char>>, b: seq<Option<char>>)
    ensures QuoteRun(st, a + b) == QuoteRun(QuoteRun(st, a), b)
    decreases |b|
  {
    if b == [] {
      assert a + b == a;
    } else {
      QuoteRunAppend(st, a, b[..|b| - 1]);
      assert (a + b)[..|a + b| - 1] == a + b[..|b| - 1];
    }
  }

  /** Text without quote characters never opens a string. */
  lemma {:induction false} NoQuotesStayClosed(chars: seq<Option<char>>)
    requires forall i :: 0 <= i < |chars| ==> chars[i] != Some('"') && chars[i] != Some('\'')
    ensures QuoteRun(Closed, chars) == Closed
    decreases |chars|
  {
    if chars != [] {
      NoQuotesStayClosed(chars[..|chars| - 1]);
    }
  }

  /** The body of a string quoted by `q`: plain characters other than `q` and '\', and escape pairs. */
  predicate StringBody(q: char, body: seq<Option<char>>)
    decreases |body|
  {
    body == [] ||
    (body[0] != Some('\\') && body[0] != Some(q) && StringBody(q, body[1..])) ||
    (|body| >= 2 && body[0] == Some('\\') && StringBody(q, body[2..]))
  }

  /** Inside a string, a well-formed body leaves the string open. */
  lemma {:induction false} BodyStaysOpen(q: char, body: seq<Option<char>>)
    requires StringBody(q, body)
    ensures QuoteRun(InString(q), body) == InString(q)
    decreases |body|
  {
    if body != [] {
      if body[0] != Some('\\') && body[0] != Some(q) && StringBody(q, body[1..]) {
        BodyStaysOpen(q, body[1..]);
        QuoteRunAppend(InString(q), [body[0]], body[1..]);
        assert [body[0]] + body[1..] == body;
        assert QuoteRun(InString(q), [body[0]]) == QuoteStep(QuoteRun(InString(q), []), body[0]);
      } else {
        BodyStaysOpen(q, body[2..]);
        QuoteRunAppend(InString(q), body[..2], body[2..]);
        assert body[..2] + body[2..] == body;
        assert body[..2][..1] == [body[0]];
        assert QuoteRun(InString(q), body[..2]) == QuoteStep(QuoteRun(InString(q), [body[0]]), body[1]);
        assert QuoteRun(InString(q), [body[0]]) == QuoteStep(QuoteRun(InString(q), []), body[0]);
      }
    }
  }

  /** A complete quoted string closes again: a ';' after it commits. */
  lemma QuotedStringCloses(q: char, body: seq<Option<char>>)
    requires q == '"' || q == '\''
    requires StringBody(q, body)
    ensures QuoteRun(Closed, [Some(q)] + body + [Some(q)]) == Closed
    ensures QuoteRun(Closed, [Some(q)] + body) == InString(q)
  {
    assert QuoteRun(Closed, [Some(q)]) == QuoteStep(QuoteRun(Closed, []), Some(q));
    BodyStaysOpen(q, body);
    QuoteRunAppend(Closed, [Some(q)], body);
    var open := [Some(q)] + body;
    assert (open + [Some(q)])[..|open|] == open;
  }

  // ---------------------------------------------------------------- used and overloaded properties

  /** A declaration of a rule's style: its name, liveness, parse status and priority ("important" or ""). */
  datatype Property = Property(name: string, isLive: bool, parsedOk: bool, priority: string)

  /**
   * A style rule as `_markUsedProperties` sees it; `noAffect` is its section's
   * flag and `usedProperties` the names marked on it (`None` when never assigned).
   */
  datatype Rule = Rule(computedStyle: bool, isStyleSeparator: bool, noAffect: bool,
                       properties: seq<Property>, usedProperties: Option<set<string>>)

  /** The first pass considers the rule. */
  predicate Counted(rule: Rule)
  {
    !rule.computedStyle && !rule.isStyleSeparator && !rule.noAffect
  }

  /** The second pass considers the rule (a `noAffect` rule included). */
  predicate Walked(rule: Rule)
  {
    !rule.computedStyle && !rule.isStyleSeparator
  }

  /** The canonical names of the live, parsed declarations. */
  function LiveNames(props: seq<Property>): set<string>
  {
    if props == [] then {}
    else
      var p := props[|props| - 1];
      LiveNames(props[..|props| - 1]) + (if p.isLive && p.parsedOk then {CanonicalPropertyName(p.name)} else {})
  }

  /** A live, parsed declaration carries a priority. */
  predicate HasPriorityIn(props: seq<Property>)
  {
    props != [] &&
    (HasPriorityIn(props[..|props| - 1]) ||
     (var p := props[|props| - 1]; p.isLive && p.parsedOk && p.priority != []))
  }

  /** The declaration is live, parsed, and its canonical name is `c`. */
  predicate LiveAs(p: Property, c: string)
  {
    p.isLive && p.parsedOk && CanonicalPropertyName(p.name) == c
  }

  /** A name is among the live names exactly when a live, parsed declaration has it. */
  lemma {:induction false} LiveNamesMeans(props: seq<Property>, c: string)
    ensures c in LiveNames(props) <==> exists j :: 0 <= j < |props| && LiveAs(props[j], c)
    decreases |props|
  {
    if props != [] {
      var front := props[..|props| - 1];
      LiveNamesMeans(front, c);
      assert c in LiveNames(props) <==> c in LiveNames(front) || LiveAs(props[|props| - 1], c);
      if c in LiveNames(front) {
        var j :| 0 <= j < |front| && LiveAs(front[j], c);
        assert props[j] == front[j];
      } else if !LiveAs(props[|props| - 1], c) {
        forall j | 0 <= j < |props|
          ensures !LiveAs(props[j], c)
        {
          if j < |front| {
            assert props[j] == front[j];
          }
        }
      }
    }
  }

  /** `usedProperties` before rule `i`: the names given plus every counted earlier rule's live names. */
  function UsedBefore(rules: seq<Rule>, usedIn: set<string>, i: nat): set<string>
    requires i <= |rules|
  {
    if i == 0 then usedIn
    else UsedBefore(rules, usedIn, i - 1) + (if Counted(rules[i - 1]) then LiveNames(rules[i - 1].properties) else {})
  }

  /** The marks after the first pass: a counted rule gets its live names not used by an earlier rule. */
  function FirstMarks(rules: seq<Rule>, usedIn: set<string>): (marks: seq<Option<set<string>>>)
    ensures |marks| == |rules|
  {
    seq(|rules|, i requires 0 <= i < |rules| => FirstMark(rules, usedIn, i))
  }

  /** The mark of rule `i` after the first pass. */
  function FirstMark(rules: seq<Rule>, usedIn: set<string>, i: nat): Option<set<string>>
    requires i < |rules|
  {
    if Counted(rules[i]) then Some(LiveNames(rules[i].properties) - UsedBefore(rules, usedIn, i))
    else rules[i].usedProperties
  }

  /** Some counted rule declares a live, parsed property with a priority (`priorityUsed`). */
  predicate PriorityUsed(rules: seq<Rule>, n: nat)
    requires n <= |rules|
  {
    exists i :: 0 <= i < n && Counted(rules[i]) && HasPriorityIn(rules[i].properties)
  }

  /**
   * The first loop of `_markUsedProperties`: each counted rule is marked with its
   * live names not already used, which then become used; `priorityUsed` records
   * whether any of those declarations has a priority.
   */
  method MarkFirstPass(rules: seq<Rule>, usedIn: set<string>)
    returns (marks: seq<Option<set<string>>>, used: set<string>, priorityUsed: bool)
    ensures marks == FirstMarks(rules, usedIn)
    ensures used == UsedBefore(rules, usedIn, |rules|)
    ensures priorityUsed == PriorityUsed(rules, |rules|)
  {
    marks := seq(|rules|, i requires 0 <= i < |rules| => rules[i].usedProperties);
    used := usedIn;
    priorityUsed := false;
    var i := 0;
    while i < |rules|
      invariant 0 <= i <= |rules| && |marks| == |rules|
      invariant forall k :: 0 <= k < i ==> marks[k] == FirstMark(rules, usedIn, k)
      invariant forall k :: i <= k < |rules| ==> marks[k] == rules[k].usedProperties
      invariant used == UsedBefore(rules, usedIn, i)
      invariant priorityUsed == PriorityUsed(rules, i)
    {
      PriorityUsedStep(rules, i);
      if !Counted(rules[i]) {
        i := i + 1;
        continue;
      }
      var mark, hasPriority := MarkRule(rules[i].properties, used);
      priorityUsed := priorityUsed || hasPriority;
      marks := marks[i := Some(mark)];
      used := used + mark;
      i := i + 1;
    }
    assert forall k :: 0 <= k < |rules| ==> marks[k] == FirstMarks(rules, usedIn)[k];
  }

  lemma PriorityUsedStep(rules: seq<Rule>, i: nat)
    requires i < |rules|
    ensures PriorityUsed(rules, i + 1) == (PriorityUsed(rules, i) || (Counted(rules[i]) && HasPriorityIn(rules[i].properties)))
  {
  }

  /**
   * One rule of the first loop: its live, parsed names not already used, and
   * whether one of those declarations has a priority.
   */
  method MarkRule(props: seq<Property>, used: set<string>) returns (mark: set<string>, hasPriority: bool)
    ensures mark == LiveNames(props) - used
    ensures hasPriority == HasPriorityIn(props)
  {
    mark := {};
    hasPriority := false;
    var j := 0;
    while j < |props|
      invariant 0 <= j <= |props|
      invariant mark == LiveNames(props[..j]) - used
      invariant hasPriority == HasPriorityIn(props[..j])
    {
      PrefixStep(props, j);
      mark, hasPriority := MarkDeclaration(props[j], used, mark, hasPriority);
      j := j + 1;
    }
    assert props[..j] == props;
  }

  /** The body of the declaration loop: a live, parsed declaration adds its unused name and its priority. */
  method MarkDeclaration(property: Property, used: set<string>, mark: set<string>, hasPriority: bool)
    returns (mark': set<string>, hasPriority': bool)
    ensures mark' == mark + (if property.isLive && property.parsedOk then {CanonicalPropertyName(property.name)} - used else {})
    ensures hasPriority' == (hasPriority || (property.isLive && property.parsedOk && property.priority != []))
  {
    mark', hasPriority' := mark, hasPriority;
    if !property.isLive || !property.parsedOk {
      return;
    }
    var canonicalName := CanonicalPropertyName(property.name);
    if !hasPriority && property.priority != [] {
      hasPriority' := true;
    }
    if canonicalName !in used {
      mark' := mark + {canonicalName};
    }
  }

  /** One more declaration adds its name to the live names, and its priority to the check. */
  lemma PrefixStep(props: seq<Property>, j: nat)
    requires j < |props|
    ensures var p := props[j];
            LiveNames(props[..j + 1]) == LiveNames(props[..j]) + (if p.isLive && p.parsedOk then {CanonicalPropertyName(p.name)} else {})
    ensures HasPriorityIn(props[..j + 1]) == (HasPriorityIn(props[..j]) || (props[j].isLive && props[j].parsedOk && props[j].priority != []))
  {
    assert props[..j + 1][..j] == props[..j];
  }

  /** A name is used before rule `i` exactly when it was given or a counted earlier rule declares it live. */
  lemma {:induction false} UsedBeforeMeans(rules: seq<Rule>, usedIn: set<string>, i: nat, c: string)
    requires i <= |rules|
    ensures c in UsedBefore(rules, usedIn, i) <==>
            c in usedIn || exists j :: 0 <= j < i && Counted(rules[j]) && c in LiveNames(rules[j].properties)
    decreases i
  {
    if i > 0 {
      UsedBeforeMeans(rules, usedIn, i - 1, c);
    }
  }

  /**
   * The first pass marks a name on a rule exactly when that rule is the first
   * counted rule declaring it live (and parsed) and it was not used beforehand.
   */
  lemma FirstMarkIsFirstRule(rules: seq<Rule>, usedIn: set<string>, i: nat, c: string)
    requires i < |rules| && Counted(rules[i])
    ensures c in FirstMarks(rules, usedIn)[i].value <==>
            c in LiveNames(rules[i].properties) && c !in usedIn &&
            forall j :: 0 <= j < i && Counted(rules[j]) ==> c !in LiveNames(rules[j].properties)
  {
    UsedBeforeMeans(rules, usedIn, i, c);
  }

  /** So no name is marked on two rules by the first pass. */
  lemma FirstMarkUnique(rules: seq<Rule>, usedIn: set<string>, i: nat, k: nat, c: string)
    requires i < k < |rules| && Counted(rules[i]) && Counted(rules[k])
    requires c in FirstMarks(rules, usedIn)[i].value
    ensures c !in FirstMarks(rules, usedIn)[k].value
  {
    FirstMarkIsFirstRule(rules, usedIn, i, c);
    FirstMarkIsFirstRule(rules, usedIn, k, c);
  }

  /** `usedProperties` ends as the given names plus every counted rule's marks. */
  lemma UsedIsUnionOfMarks(rules: seq<Rule>, usedIn: set<string>, c: string)
    ensures c in UsedBefore(rules, usedIn, |rules|) <==>
            c in usedIn || exists i :: 0 <= i < |rules| && Counted(rules[i]) && c in FirstMarks(rules, usedIn)[i].value
  {
    UsedBeforeMeans(rules, usedIn, |rules|, c);
    if c !in usedIn && c in UsedBefore(rules, usedIn, |rules|) {
      var j :| 0 <= j < |rules| && Counted(rules[j]) && c in LiveNames(rules[j].properties);
      var first := FirstDeclaring(rules, c, j);
      FirstMarkIsFirstRule(rules, usedIn, first, c);
    }
    if c !in usedIn && exists i :: 0 <= i < |rules| && Counted(rules[i]) && c in FirstMarks(rules, usedIn)[i].value {
      var i :| 0 <= i < |rules| && Counted(rules[i]) && c in FirstMarks(rules, usedIn)[i].value;
      FirstMarkIsFirstRule(rules, usedIn, i, c);
    }
  }

  /** The first counted rule at or before `j` declaring `c` live. */
  lemma {:induction false} FirstDeclaring(rules: seq<Rule>, c: string, j: nat) returns (first: nat)
    requires j < |rules| && Counted(rules[j]) && c in LiveNames(rules[j].properties)
    ensures first <= j && Counted(rules[first]) && c in LiveNames(rules[first].properties)
    ensures forall k :: 0 <= k < first && Counted(rules[k]) ==> c !in LiveNames(rules[k].properties)
    decreases j
  {
    if exists k :: 0 <= k < j && Counted(rules[k]) && c in LiveNames(rules[k].properties) {
      var k :| 0 <= k < j && Counted(rules[k]) && c in LiveNames(rules[k].properties);
      first := FirstDeclaring(rules, c, k);
    } else {
      first := j;
    }
  }

  // The second pass, for `!important`.

  /** The state of the second pass over one rule: its marks, the names seen with a priority, and a TypeError. */
  datatype Pass = Pass(cur: Option<set<string>>, found: set<string>, thrown: bool)

  /**
   * One declaration of the second pass: a live one with a priority is marked when
   * its name is new to `found` and unmarked otherwise, then its name is found; a
   * live one without a priority is unmarked when its name was found. Writing to
   * or deleting from marks that were never assigned is a TypeError.
   */
  function PriorityStep(st: Pass, p: Property): Pass
  {
    if st.thrown || !p.isLive then st
    else
      var c := CanonicalPropertyName(p.name);
      if p.priority != [] then
        if st.cur.None? then st.(thrown := true)
        else Pass(Some(if c !in st.found then st.cur.value + {c} else st.cur.value - {c}), st.found + {c}, false)
      else if c in st.found then
        if st.cur.None? then st.(thrown := true) else st.(cur := Some(st.cur.value - {c}))
      else st
  }

  function PriorityRun(st: Pass, props: seq<Property>): Pass
  {
    if props == [] then st else PriorityStep(PriorityRun(st, props[..|props| - 1]), props[|props| - 1])
  }

  /** The state of the second pass over the rules: every rule's marks, the names found, and a TypeError. */
  datatype RulesPass = RulesPass(marks: seq<Option<set<string>>>, found: set<string>, thrown: bool)

  /** The second pass over the first `n` rules, starting from the first pass's marks. */
  function PriorityRules(rules: seq<Rule>, marksIn: seq<Option<set<string>>>, n: nat): (r: RulesPass)
    requires n <= |rules| == |marksIn|
    ensures |r.marks| == |rules|
    ensures forall k :: n <= k < |rules| ==> r.marks[k] == marksIn[k]
  {
    if n == 0 then RulesPass(marksIn, {}, false)
    else
      var prev := PriorityRules(rules, marksIn, n - 1);
      if prev.thrown || !Walked(rules[n - 1]) then prev
      else
        var st := PriorityRun(Pass(prev.marks[n - 1], prev.found, false), rules[n - 1].properties);
        RulesPass(prev.marks[n - 1 := st.cur], st.found, st.thrown)
  }

  /**
   * The second loop of `_markUsedProperties`: walking the rules in order, the
   * first `!important` declaration of a name keeps it marked and every later
   * declaration of that name loses it; `thrown` is the TypeError on a rule whose
   * marks were never assigned.
   */
  method MarkPriorities(rules: seq<Rule>, marksIn: seq<Option<set<string>>>)
    returns (marks: seq<Option<set<string>>>, thrown: bool)
    requires |marksIn| == |rules|
    ensures thrown == PriorityRules(rules, marksIn, |rules|).thrown
    ensures !thrown ==> marks == PriorityRules(rules, marksIn, |rules|).marks
  {
    marks, thrown := marksIn, false;
    var found: set<string> := {};
    var i := 0;
    while i < |rules|
      invariant 0 <= i <= |rules|
      invariant PriorityRules(rules, marksIn, i) == RulesPass(marks, found, false)
    {
      if !Walked(rules[i]) {
        i := i + 1;
        continue;
      }
      var props := rules[i].properties;
      ghost var start := Pass(marks[i], found, false);
      var cur := marks[i];
      var j := 0;
      while j < |props|
        invariant 0 <= j <= |props|
        invariant PriorityRun(start, props[..j]) == Pass(cur, found, false)
      {
        assert props[..j + 1][..j] == props[..j] && props[..j + 1][j] == props[j];
        var property := props[j];
        if !property.isLive {
          j := j + 1;
          continue;
        }
        var canonicalName := CanonicalPropertyName(property.name);
        if property.priority != [] {
          if cur.None? {
            ThrownStays(rules, marksIn, i, PriorityRun(start, props[..j + 1]), j + 1);
            return marks, true;
          }
          if canonicalName !in found {
            cur := Some(cur.value + {canonicalName});
          } else {
            cur := Some(cur.value - {canonicalName});
          }
          found := found + {canonicalName};
        } else if canonicalName in found {
          if cur.None? {
            ThrownStays(rules, marksIn, i, PriorityRun(start, props[..j + 1]), j + 1);
            return marks, true;
          }
          cur := Some(cur.value - {canonicalName});
        }
        j := j + 1;
      }
      assert props[..j] == props;
      marks := marks[i := cur];
      i := i + 1;
    }
  }

  /** A TypeError in rule `i` ends the pass: the whole pass reports it. */
  lemma ThrownStays(rules: seq<Rule>, marksIn: seq<Option<set<string>>>, i: nat, st: Pass, j: nat)
    requires i < |rules| == |marksIn| && Walked(rules[i]) && j <= |rules[i].properties|
    requires !PriorityRules(rules, marksIn, i).thrown
    requires st == PriorityRun(Pass(PriorityRules(rules, marksIn, i).marks[i], PriorityRules(rules, marksIn, i).found, false),
                               rules[i].properties[..j])
    requires st.thrown
    ensures PriorityRules(rules, marksIn, |rules|).thrown
  {
    var props := rules[i].properties;
    PriorityRunThrownStays(Pass(PriorityRules(rules, marksIn, i).marks[i], PriorityRules(rules, marksIn, i).found, false), props, j);
    RulesThrownStays(rules, marksIn, i + 1, |rules|);
  }

  lemma {:induction false} PriorityRunThrownStays(st: Pass, props: seq<Property>, j: nat)
    requires j <= |props| && PriorityRun(st, props[..j]).thrown
    ensures PriorityRun(st, props).thrown
    decreases |props| - j
  {
    if j < |props| {
      assert props[..j + 1][..j] == props[..j];
      PriorityRunThrownStays(st, props, j + 1);
    } else {
      assert props[..j] == props;
    }
  }

  lemma {:induction false} RulesThrownStays(rules: seq<Rule>, marksIn: seq<Option<set<string>>>, i: nat, n: nat)
    requires 0 < i <= n <= |rules| == |marksIn|
    requires PriorityRules(rules, marksIn, i).thrown || (
               !PriorityRules(rules, marksIn, i - 1).thrown && Walked(rules[i - 1]) &&
               PriorityRun(Pass(PriorityRules(rules, marksIn, i - 1).marks[i - 1], PriorityRules(rules, marksIn, i - 1).found, false),
                           rules[i - 1].properties).thrown)
    ensures PriorityRules(rules, marksIn, n).thrown
    decreases n - i
  {
    if i < n {
      RulesThrownStays(rules, marksIn, i + 1, n);
    }
  }

  // What the second pass means, name by name.

  /** A live declaration of the canonical name `c`. */
  predicate Declares(p: Property, c: string)
  {
    p.isLive && CanonicalPropertyName(p.name) == c
  }

  /** A live declaration of `c` with a priority. */
  predicate DeclaresImportant(p: Property, c: string)
  {
    Declares(p, c) && p.priority != []
  }

  predicate NoImportant(props: seq<Property>, c: string)
  {
    forall j :: 0 <= j < |props| ==> !DeclaresImportant(props[j], c)
  }

  /** The index of the last live declaration of `c`, or -1. */
  function LastDeclaration(props: seq<Property>, c: string): (k: int)
    ensures -1 <= k < |props| && (k >= 0 ==> Declares(props[k], c))
    ensures forall j :: k < j < |props| ==> !Declares(props[j], c)
  {
    if props == [] then -1
    else if Declares(props[|props| - 1], c) then |props| - 1
    else LastDeclaration(props[..|props| - 1], c)
  }

  /** The canonical names of the live declarations with a priority. */
  function ImportantNames(props: seq<Property>): set<string>
  {
    if props == [] then {}
    else
      var p := props[|props| - 1];
      ImportantNames(props[..|props| - 1]) + (if p.isLive && p.priority != [] then {CanonicalPropertyName(p.name)} else {})
  }

  predicate Has(marks: Option<set<string>>, c: string)
  {
    marks.Some? && c in marks.value
  }

  /**
   * Whether a rule is marked with `c` after the second pass, stated through its
   * last live declaration of `c`: with none the mark stays as it was; a last
   * declaration with a priority keeps `c` when no earlier rule had `c` with a
   * priority and it is the rule's first such declaration; a last one without a
   * priority keeps the earlier mark only when `c` never had a priority so far.
   */
  predicate KeepsAfterPriorities(props: seq<Property>, c: string, initially: bool, foundBefore: bool)
  {
    var k := LastDeclaration(props, c);
    if k < 0 then initially
    else if props[k].priority != [] then !foundBefore && NoImportant(props[..k], c)
    else initially && !foundBefore && NoImportant(props, c)
  }

  lemma {:induction false} ImportantNamesMeans(props: seq<Property>, c: string)
    ensures c in ImportantNames(props) <==> !NoImportant(props, c)
    decreases |props|
  {
    if props != [] {
      var front := props[..|props| - 1];
      ImportantNamesMeans(front, c);
      NoImportantSnoc(props, c);
    }
  }

  /** When the pass over one rule throws, and that it does not touch `found` without a mark set. */
  lemma {:induction false} PriorityRunThrows(st: Pass, props: seq<Property>)
    requires !st.thrown
    ensures st.cur.Some? ==> !PriorityRun(st, props).thrown && PriorityRun(st, props).cur.Some?
    ensures st.cur.None? && !PriorityRun(st, props).thrown ==>
              PriorityRun(st, props).cur.None? && PriorityRun(st, props).found == st.found
    ensures PriorityRun(st, props).thrown <==>
              st.cur.None? &&
              exists j :: 0 <= j < |props| && props[j].isLive &&
                          (props[j].priority != [] || CanonicalPropertyName(props[j].name) in st.found)
    decreases |props|
  {
    if props != [] {
      var front := props[..|props| - 1];
      PriorityRunThrows(st, front);
      forall j | 0 <= j < |front|
        ensures front[j] == props[j]
      {
      }
    }
  }

  /** The names the second pass over one rule finds: those declared live with a priority. */
  lemma {:induction false} PriorityRunFound(st: Pass, props: seq<Property>)
    requires !st.thrown && !PriorityRun(st, props).thrown
    ensures PriorityRun(st, props).found == st.found + ImportantNames(props)
    decreases |props|
  {
    if props != [] {
      PriorityRunFound(st, props[..|props| - 1]);
    }
  }

  /** The second pass over one rule, name by name. */
  lemma {:induction false} PriorityRunMeans(st: Pass, props: seq<Property>, c: string)
    requires !st.thrown && !PriorityRun(st, props).thrown
    ensures Has(PriorityRun(st, props).cur, c) == KeepsAfterPriorities(props, c, Has(st.cur, c), c in st.found)
    decreases |props|
  {
    if props != [] {
      var n := |props|;
      var front, p := props[..n - 1], props[n - 1];
      var prev := PriorityRun(st, front);
      assert !prev.thrown;
      PriorityRunMeans(st, front, c);
      PriorityRunFound(st, front);
      ImportantNamesMeans(front, c);
      PriorityStepMeans(prev, p, props, c, Has(st.cur, c), c in st.found);
    }
  }

  /** One more declaration of the second pass, given what the pass over the earlier ones did to `c`. */
  lemma PriorityStepMeans(prev: Pass, p: Property, props: seq<Property>, c: string, initially: bool, foundBefore: bool)
    requires props != [] && p == props[|props| - 1]
    requires !prev.thrown && !PriorityStep(prev, p).thrown
    requires Has(prev.cur, c) == KeepsAfterPriorities(props[..|props| - 1], c, initially, foundBefore)
    requires (c in prev.found) == (foundBefore || !NoImportant(props[..|props| - 1], c))
    ensures Has(PriorityStep(prev, p).cur, c) == KeepsAfterPriorities(props, c, initially, foundBefore)
  {
    if !Declares(p, c) {
      KeepsOther(props, c, initially, foundBefore);
    } else if p.priority != [] {
      KeepsImportant(props, c, initially, foundBefore);
    } else {
      KeepsPlain(props, c, initially, foundBefore);
      if c !in prev.found {
        KeepsUntouched(props[..|props| - 1], c, initially, foundBefore);
      }
    }
  }

  /** A last declaration of another name does not change what happens to `c`. */
  lemma KeepsOther(props: seq<Property>, c: string, initially: bool, foundBefore: bool)
    requires props != [] && !Declares(props[|props| - 1], c)
    ensures KeepsAfterPriorities(props, c, initially, foundBefore) ==
            KeepsAfterPriorities(props[..|props| - 1], c, initially, foundBefore)
  {
    var front := props[..|props| - 1];
    var k := LastDeclaration(front, c);
    assert LastDeclaration(props, c) == k;
    NoImportantSnoc(props, c);
    if k >= 0 {
      assert props[k] == front[k] && props[..k] == front[..k];
    }
  }

  /** A list has no declaration of `c` with a priority when its front has none and its last one is not one. */
  lemma NoImportantSnoc(props: seq<Property>, c: string)
    requires props != []
    ensures NoImportant(props, c) == (NoImportant(props[..|props| - 1], c) && !DeclaresImportant(props[|props| - 1], c))
  {
    var front := props[..|props| - 1];
    assert forall j :: 0 <= j < |front| ==> props[j] == front[j];
  }

  /** A last declaration of `c` with a priority keeps `c` when nothing before had `c` with a priority. */
  lemma KeepsImportant(props: seq<Property>, c: string, initially: bool, foundBefore: bool)
    requires props != [] && DeclaresImportant(props[|props| - 1], c)
    ensures KeepsAfterPriorities(props, c, initially, foundBefore) ==
            (!foundBefore && NoImportant(props[..|props| - 1], c))
  {
  }

  /** A last declaration of `c` without a priority keeps the mark only when `c` never had a priority. */
  lemma KeepsPlain(props: seq<Property>, c: string, initially: bool, foundBefore: bool)
    requires props != [] && Declares(props[|props| - 1], c) && props[|props| - 1].priority == []
    ensures KeepsAfterPriorities(props, c, initially, foundBefore) ==
            (initially && !foundBefore && NoImportant(props[..|props| - 1], c))
  {
    var front := props[..|props| - 1];
    assert NoImportant(props, c) == NoImportant(front, c) by {
      forall j | 0 <= j < |front|
        ensures props[j] == front[j]
      {
      }
    }
  }

  /** Where `c` never had a priority, the mark of `c` is left alone. */
  lemma KeepsUntouched(props: seq<Property>, c: string, initially: bool, foundBefore: bool)
    requires !foundBefore && NoImportant(props, c)
    ensures KeepsAfterPriorities(props, c, initially, foundBefore) == initially
  {
  }

  /** The names found with a priority in the walked rules before rule `n`. */
  function FoundBefore(rules: seq<Rule>, n: nat): set<string>
    requires n <= |rules|
  {
    if n == 0 then {}
    else FoundBefore(rules, n - 1) + (if Walked(rules[n - 1]) then ImportantNames(rules[n - 1].properties) else {})
  }

  /** Without a TypeError the pass over the rules ends having found exactly those names. */
  lemma {:induction false} PriorityRulesFound(rules: seq<Rule>, marksIn: seq<Option<set<string>>>, n: nat)
    requires n <= |rules| == |marksIn| && !PriorityRules(rules, marksIn, n).thrown
    ensures PriorityRules(rules, marksIn, n).found == FoundBefore(rules, n)
    decreases n
  {
    if n > 0 {
      var prev := PriorityRules(rules, marksIn, n - 1);
      PriorityRulesFound(rules, marksIn, n - 1);
      if Walked(rules[n - 1]) {
        PriorityRunFound(Pass(prev.marks[n - 1], prev.found, false), rules[n - 1].properties);
      }
    }
  }

  /**
   * The second pass, rule by rule: a walked rule ends marked with `c` exactly as
   * `KeepsAfterPriorities` says, given its first-pass mark and whether an
   * earlier walked rule declared `c` with a priority.
   */
  lemma {:induction false} PriorityRulesMeans(rules: seq<Rule>, marksIn: seq<Option<set<string>>>, n: nat, i: nat, c: string)
    requires i < n <= |rules| == |marksIn| && Walked(rules[i])
    requires !PriorityRules(rules, marksIn, n).thrown
    ensures Has(PriorityRules(rules, marksIn, n).marks[i], c) ==
            KeepsAfterPriorities(rules[i].properties, c, Has(marksIn[i], c), c in FoundBefore(rules, i))
    decreases n
  {
    var prev := PriorityRules(rules, marksIn, n - 1);
    assert !prev.thrown;
    if i < n - 1 {
      PriorityRulesMeans(rules, marksIn, n - 1, i, c);
    } else {
      PriorityRulesFound(rules, marksIn, i);
      PriorityRunMeans(Pass(prev.marks[i], prev.found, false), rules[i].properties, c);
    }
  }

  lemma {:induction false} FoundBeforeHas(rules: seq<Rule>, i: nat, k: nat, c: string)
    requires i < k <= |rules| && Walked(rules[i]) && c in ImportantNames(rules[i].properties)
    ensures c in FoundBefore(rules, k)
    decreases k
  {
    if i < k - 1 {
      FoundBeforeHas(rules, i, k - 1, c);
    }
  }

  /** Once a walked rule has declared `c` with a priority, every later walked rule declaring `c` loses it. */
  lemma LaterRuleLoses(rules: seq<Rule>, marksIn: seq<Option<set<string>>>, i: nat, k: nat, j: nat, c: string)
    requires i < k < |rules| == |marksIn| && Walked(rules[i]) && Walked(rules[k])
    requires c in ImportantNames(rules[i].properties)
    requires j < |rules[k].properties| && Declares(rules[k].properties[j], c)
    requires !PriorityRules(rules, marksIn, |rules|).thrown
    ensures !Has(PriorityRules(rules, marksIn, |rules|).marks[k], c)
  {
    FoundBeforeHas(rules, i, k, c);
    PriorityRulesMeans(rules, marksIn, |rules|, k, c);
  }

  /**
   * `_markUsedProperties`: the first pass, then the `!important` pass when a
   * counted rule uses a priority. `thrown` is the TypeError the second pass
   * raises on a rule whose marks were never assigned.
   */
  method MarkUsedProperties(rules: seq<Rule>, usedIn: set<string>)
    returns (marks: seq<Option<set<string>>>, used: set<string>, thrown: bool)
    ensures used == UsedBefore(rules, usedIn, |rules|)
    ensures thrown == (PriorityUsed(rules, |rules|) && PriorityRules(rules, FirstMarks(rules, usedIn), |rules|).thrown)
    ensures !thrown ==>
              marks == if PriorityUsed(rules, |rules|) then PriorityRules(rules, FirstMarks(rules, usedIn), |rules|).marks
                       else FirstMarks(rules, usedIn)
  {
    var firstMarks, priorityUsed;
    firstMarks, used, priorityUsed := MarkFirstPass(rules, usedIn);
    if priorityUsed {
      marks, thrown := MarkPriorities(rules, firstMarks);
    } else {
      marks, thrown := firstMarks, false;
    }
  }
}
