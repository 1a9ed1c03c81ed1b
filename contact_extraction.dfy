/** The contact-detail extraction of the analysis engine: the phone and
    e-mail regular expressions, run as leftmost-match scanners, and the
    first-line name. */
module ContactExtraction {
  import opened Strings

  /** The character classes of the phone and e-mail patterns. */
  datatype CharClass =
    | PhoneBody     // [\d\s-]
    | EmailLocal    // [a-zA-Z0-9._%+-]
    | EmailDomain   // [a-zA-Z0-9.-]
    | EmailTld      // [a-zA-Z]

  predicate InClass(c: char, cls: CharClass) {
    match cls
    case PhoneBody => IsDigit(c) || IsSpace(c) || c == '-'
    case EmailLocal => IsAsciiLetterOrDigit(c) || c == '.' || c == '_' || c == '%' || c == '+' || c == '-'
    case EmailDomain => IsAsciiLetterOrDigit(c) || c == '.' || c == '-'
    case EmailTld => IsAsciiLetter(c)
  }

  /** Length of the longest run of `cls` characters starting at `from`:
      what a greedy `[…]+` takes. */
  function RunLength(text: string, from: nat, cls: CharClass): (n: nat)
    requires from <= |text|
    ensures from + n <= |text|
    ensures forall k :: from <= k < from + n ==> InClass(text[k], cls)
    ensures from + n < |text| ==> !InClass(text[from + n], cls)
    decreases |text| - from
  {
    if from == |text| || !InClass(text[from], cls) then 0 else 1 + RunLength(text, from + 1, cls)
  }

  /** `\+?[\d\s-]{10,}` anchored at `i`: the end of the match, if any. The
      optional `+` is taken when present; giving it back cannot help,
      because `+` is not in the class that follows. */
  function PhoneMatchAt(text: string, i: nat): (end: Option<nat>)
    requires i <= |text|
    ensures end.Some? ==> i + 10 <= end.value <= |text|
  {
    var start := if i < |text| && text[i] == '+' then i + 1 else i;
    var n := RunLength(text, start, PhoneBody);
    if n >= 10 then Some(start + n) else None
  }

  /** The `\.[a-zA-Z]{2,}` tail after a domain part `[a-zA-Z0-9.-]+` that
      starts at `domainStart` and is tried with its end at `k`, then given
      back one character at a time. */
  function EmailTailFrom(text: string, domainStart: nat, k: nat): (end: Option<nat>)
    requires domainStart <= k <= |text|
    ensures end.Some? ==> domainStart + 4 <= end.value <= |text|
    decreases k
  {
    if k <= domainStart then None
    else if k < |text| && text[k] == '.' && RunLength(text, k + 1, EmailTld) >= 2 then
      Some(k + 1 + RunLength(text, k + 1, EmailTld))
    else EmailTailFrom(text, domainStart, k - 1)
  }

  /** `[a-zA-Z0-9._%+-]+@[a-zA-Z0-9.-]+\.[a-zA-Z]{2,}` anchored at `i`.
      The local part must be followed by `@`, and `@` is in none of the
      classes, so only its longest run can succeed. */
  function EmailMatchAt(text: string, i: nat): (end: Option<nat>)
    requires i <= |text|
    ensures end.Some? ==> i + 6 <= end.value <= |text|
  {
    var local := RunLength(text, i, EmailLocal);
    if local >= 1 && i + local < |text| && text[i + local] == '@' then
      var domainStart := i + local + 1;
      EmailTailFrom(text, domainStart, domainStart + RunLength(text, domainStart, EmailDomain))
    else None
  }

  datatype Pattern = PhonePattern | EmailPattern

  function MatchAt(text: string, i: nat, pattern: Pattern): (end: Option<nat>)
    requires i <= |text|
    ensures end.Some? ==> i < end.value <= |text|
  {
    match pattern
    case PhonePattern => PhoneMatchAt(text, i)
    case EmailPattern => EmailMatchAt(text, i)
  }

  /** The leftmost position at or after `from` whose entry is present, with that entry. */
  function FirstSome(ms: seq<Option<nat>>, from: nat): (m: Option<(nat, nat)>)
    requires from <= |ms|
    ensures m.Some? ==> from <= m.value.0 < |ms| && ms[m.value.0] == Some(m.value.1)
    decreases |ms| - from
  {
    if from == |ms| then None
    else if ms[from].Some? then Some((from, ms[from].value))
    else FirstSome(ms, from + 1)
  }

  /** Nothing before the position found is present, and when none is found,
      nothing at or after `from` is. */
  lemma {:induction false} FirstSomeIsLeftmost(ms: seq<Option<nat>>, from: nat)
    requires from <= |ms|
    ensures FirstSome(ms, from).Some? ==> forall k :: from <= k < FirstSome(ms, from).value.0 ==> ms[k].None?
    ensures FirstSome(ms, from).None? ==> forall k :: from <= k < |ms| ==> ms[k].None?
    decreases |ms| - from
  {
    if from < |ms| && ms[from].None? {
      FirstSomeIsLeftmost(ms, from + 1);
    }
  }

  /** The outcome of trying the pattern at every position of the text, the end included. */
  function Attempts(text: string, pattern: Pattern): (ms: seq<Option<nat>>)
    ensures |ms| == |text| + 1
    ensures forall i :: 0 <= i <= |text| ==> ms[i] == MatchAt(text, i, pattern)
  {
    seq(|text| + 1, i requires 0 <= i <= |text| => MatchAt(text, i, pattern))
  }

  /** `Regex.Match`: the leftmost match at or after `from`, as its start and end. */
  function FirstMatch(text: string, pattern: Pattern, from: nat): (m: Option<(nat, nat)>)
    requires from <= |text|
    ensures m.Some? ==> from <= m.value.0 < m.value.1 <= |text|
    ensures m.Some? ==> MatchAt(text, m.value.0, pattern) == Some(m.value.1)
  {
    FirstSome(Attempts(text, pattern), from)
  }

  /** The match found is the leftmost one: no match starts earlier, and
      when none is found, none starts anywhere. */
  lemma FirstMatchIsLeftmost(text: string, pattern: Pattern, from: nat)
    requires from <= |text|
    ensures FirstMatch(text, pattern, from).Some? ==>
              forall k :: from <= k < FirstMatch(text, pattern, from).value.0 ==> MatchAt(text, k, pattern).None?
    ensures FirstMatch(text, pattern, from).None? ==>
              forall k :: from <= k <= |text| ==> MatchAt(text, k, pattern).None?
  {
    FirstSomeIsLeftmost(Attempts(text, pattern), from);
  }

  /** `Regex.IsMatch(text, @"\+?[\d\s-]{10,}")`. */
  predicate PhonePatternMatches(text: string) {
    FirstMatch(text, PhonePattern, 0).Some?
  }

  /** `ExtractPhone`: the trimmed leftmost match, or "" when there is none. */
  function ExtractPhone(text: string): (phone: string)
    ensures !PhonePatternMatches(text) ==> phone == ""
    ensures phone != "" ==> exists k :: OccursAt(text, phone, k)
    ensures forall c <- phone :: c == '+' || InClass(c, PhoneBody)
    ensures phone != "" ==> !IsSpace(phone[0]) && !IsSpace(phone[|phone| - 1])
    ensures PhonePatternMatches(text) ==>
              var m := FirstMatch(text, PhonePattern, 0).value;
              phone == Trim(text[m.0..m.1])
  {
    var m := FirstMatch(text, PhonePattern, 0);
    if m.None? then ""
    else
      var start, end := m.value.0, m.value.1;
      PhoneMatchChars(text, start);
      TrimmedPieceOccurs(text, start, end);
      Trim(text[start..end])
  }

  /** Every character of a phone match is `+` or in `[\d\s-]`. */
  lemma PhoneMatchChars(text: string, i: nat)
    requires i <= |text| && PhoneMatchAt(text, i).Some?
    ensures forall c <- text[i..PhoneMatchAt(text, i).value] :: c == '+' || InClass(c, PhoneBody)
  {
    var start := if i < |text| && text[i] == '+' then i + 1 else i;
    var n := RunLength(text, start, PhoneBody);
    var end := start + n;
    assert PhoneMatchAt(text, i).value == end;
    var m := text[i..end];
    forall j | 0 <= j < |m| ensures m[j] == '+' || InClass(m[j], PhoneBody) {
      assert m[j] == text[i + j];
      if i + j >= start {
        assert start <= i + j < start + n;
      }
    }
  }

  /** The trimmed part of a piece of `text` occurs in `text`, and holds only characters of that piece. */
  lemma TrimmedPieceOccurs(text: string, start: nat, end: nat)
    requires start <= end <= |text|
    ensures Trim(text[start..end]) != "" ==> exists k :: OccursAt(text, Trim(text[start..end]), k)
    ensures forall c <- Trim(text[start..end]) :: c in text[start..end]
  {
    var value := text[start..end];
    assert OccursAt(text, value, start);
    OccursWithin(text, value, Trim(value), start, LeadingSpace(value));
  }

  /** A text whose characters from `from` on are all of class `cls` is one run to its end. */
  lemma {:induction false} RunToEnd(text: string, from: nat, cls: CharClass)
    requires from <= |text|
    requires forall k :: from <= k < |text| ==> InClass(text[k], cls)
    ensures RunLength(text, from, cls) == |text| - from
    decreases |text| - from
  {
    if from < |text| {
      RunToEnd(text, from + 1, cls);
    }
  }

  /** Ten spaces satisfy the phone pattern, so they earn the phone points of
      the ATS score, yet `ExtractPhone` trims them away to "". */
  lemma WhitespaceCountsAsPhone()
    ensures PhonePatternMatches("          ")
    ensures ExtractPhone("          ") == ""
  {
    var text := "          ";
    assert forall k :: 0 <= k < |text| ==> text[k] == ' ';
    RunToEnd(text, 0, PhoneBody);
    assert PhoneMatchAt(text, 0) == Some(10);
    assert FirstMatch(text, PhonePattern, 0) == Some((0, 10));
    assert text[0..10] == text;
    assert IsWhiteSpaceOnly(text);
  }

  /** `ExtractEmail`: the leftmost match, or "" when there is none. */
  function ExtractEmail(text: string): (email: string)
    ensures FirstMatch(text, EmailPattern, 0).None? ==> email == ""
    ensures FirstMatch(text, EmailPattern, 0).Some? ==>
              var m := FirstMatch(text, EmailPattern, 0).value;
              email != "" && email == text[m.0..m.1]
    ensures email != "" ==> exists k :: OccursAt(text, email, k)
    ensures email != "" ==> '@' in email && IsAsciiLetter(email[|email| - 1])
  {
    var m := FirstMatch(text, EmailPattern, 0);
    if m.None? then ""
    else
      var start, end := m.value.0, m.value.1;
      EmailMatchShape(text, start);
      assert OccursAt(text, text[start..end], start);
      text[start..end]
  }

  /** A successful e-mail match holds `@` and ends with a letter of its top-level domain. */
  lemma EmailMatchShape(text: string, i: nat)
    requires i <= |text| && EmailMatchAt(text, i).Some?
    ensures '@' in text[i..EmailMatchAt(text, i).value]
    ensures IsAsciiLetter(text[EmailMatchAt(text, i).value - 1])
  {
    var local := RunLength(text, i, EmailLocal);
    var domainStart := i + local + 1;
    var end := EmailMatchAt(text, i).value;
    assert text[i..end][local] == '@';
    EmailTailShape(text, domainStart, domainStart + RunLength(text, domainStart, EmailDomain));
  }

  lemma {:induction false} EmailTailShape(text: string, domainStart: nat, k: nat)
    requires domainStart <= k <= |text| && EmailTailFrom(text, domainStart, k).Some?
    ensures IsAsciiLetter(text[EmailTailFrom(text, domainStart, k).value - 1])
    decreases k
  {
    if !(k < |text| && text[k] == '.' && RunLength(text, k + 1, EmailTld) >= 2) {
      EmailTailShape(text, domainStart, k - 1);
    }
  }

  /** `ExtractName`: the first non-empty line (lines end at `\r` or `\n`),
      trimmed, or "" when the text has no lines. */
  function ExtractName(text: string): (name: string)
    ensures name != "" ==> exists k :: OccursAt(text, name, k)
    ensures '\r' !in name && '\n' !in name
    ensures name != "" ==> !IsSpace(name[0]) && !IsSpace(name[|name| - 1])
  {
    var lines := Split(text, {'\r', '\n'});
    if |lines| > 0 then
      TrimmedFirstLine(text);
      Trim(lines[0])
    else []
  }

  /** The trimmed first line occurs in the text and holds no line break. */
  lemma TrimmedFirstLine(text: string)
    requires Split(text, {'\r', '\n'}) != []
    ensures Trim(Split(text, {'\r', '\n'})[0]) != "" ==>
              exists k :: OccursAt(text, Trim(Split(text, {'\r', '\n'})[0]), k)
    ensures forall c <- Trim(Split(text, {'\r', '\n'})[0]) :: c != '\r' && c != '\n'
  {
    TrimmedFirstPiece(text, {'\r', '\n'});
  }

  /** A text whose first line is `line`, ended by `\r` or `\n`, is named by
      that line, trimmed. */
  lemma FirstLineIsName(line: string, sep: char, rest: string)
    requires line != [] && '\r' !in line && '\n' !in line
    requires sep == '\r' || sep == '\n'
    ensures ExtractName(line + [sep] + rest) == Trim(line)
  {
    assert line + [sep] + rest == line + ([sep] + rest);
    FirstPieceOfLine(line, [sep] + rest, {'\r', '\n'});
  }

  /** Line breaks in front of the text are skipped. */
  lemma LeadingBreaksSkipped(breaks: string, text: string)
    requires forall c <- breaks :: c == '\r' || c == '\n'
    ensures ExtractName(breaks + text) == ExtractName(text)
  {
    SplitSkipsLeadingSeparators(breaks, text, {'\r', '\n'});
  }

  /** A text of line breaks only has no lines, so no name. */
  lemma OnlyBreaksGiveNoName(text: string)
    requires forall c <- text :: c == '\r' || c == '\n'
    ensures ExtractName(text) == ""
  {
    LeadingBreaksSkipped(text, "");
    assert text + "" == text;
  }

  /** A text of one line without a break is named by that line, trimmed. */
  lemma SingleLineIsName(line: string)
    requires '\r' !in line && '\n' !in line
    ensures ExtractName(line) == Trim(line)
  {
    if line == [] {
      assert IsWhiteSpaceOnly(line);
    } else {
      SplitOfOnePiece(line, {'\r', '\n'});
    }
  }

  /** A first line of blanks is a line all the same: it trims to "", and the
      name is "" even when a later line holds text. */
  lemma BlankFirstLineGivesNoName()
    ensures ExtractName("   \nJane") == ""
  {
    FirstLineIsName("   ", '\n', "Jane");
    assert "   " + ['\n'] + "Jane" == "   \nJane";
    assert IsWhiteSpaceOnly("   ");
  }
}
