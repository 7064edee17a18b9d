/**
 Certificate serials as text (tlsconf.go): the canonical form is lower-case hex
 without separators, as big.Int's Text(16) prints it. `Canonical` is the chain
 of string edits in normalizeSerial; `Spells` says independently which texts
 stand for which integer. Text is ASCII.
 */
module Serials {
  import opened Wrappers

  // ----- Hexadecimal numerals -----

  const DIGITS := "0123456789abcdef"

  predicate IsDigit(c: char) {
    '0' <= c <= '9' || 'a' <= c <= 'f'
  }

  function DigitValue(c: char): (v: nat)
    requires IsDigit(c)
    ensures v < 16 && DIGITS[v] == c
  {
    if c <= '9' then (c - '0') as nat else (c - 'a') as nat + 10
  }

  predicate AllDigits(s: string) {
    forall i | 0 <= i < |s| :: IsDigit(s[i])
  }

  function DigitsValue(s: string): nat
    requires AllDigits(s)
  {
    if s == "" then 0
    else 16 * DigitsValue(s[..|s| - 1]) + DigitValue(s[|s| - 1])
  }

  function NatText(n: nat): string {
    if n < 16 then [DIGITS[n]] else NatText(n / 16) + [DIGITS[n % 16]]
  }

  /** big.Int's Text(16). */
  function HexText(n: int): string {
    if n < 0 then "-" + NatText(-n) else NatText(n)
  }

  /** big.Int's SetString(s, 16) on lower-case text: an optional sign, then digits. */
  function Numeral(s: string): Option<int> {
    var signed := s != "" && (s[0] == '-' || s[0] == '+');
    var digits := if signed then s[1..] else s;
    if digits == "" || !AllDigits(digits) then None
    else
      var value: int := DigitsValue(digits);
      Some(if signed && s[0] == '-' then -value else value)
  }

  lemma DigitOf(d: nat)
    requires d < 16
    ensures IsDigit(DIGITS[d]) && DigitValue(DIGITS[d]) == d
  {
  }

  lemma {:induction false} NatTextIsNumeral(n: nat)
    ensures NatText(n) != "" && AllDigits(NatText(n)) && DigitsValue(NatText(n)) == n
  {
    DigitOf(n % 16);
    if n < 16 {
      assert [DIGITS[n]][..0] == "";
    } else {
      NatTextIsNumeral(n / 16);
      var front := NatText(n / 16);
      assert NatText(n) == front + [DIGITS[n % 16]];
      assert NatText(n)[..|front|] == front;
    }
  }

  lemma NumeralOfDigits(digits: string)
    requires digits != "" && AllDigits(digits)
    ensures Numeral(digits) == Some(DigitsValue(digits))
    ensures Numeral("-" + digits) == Some(-(DigitsValue(digits) as int))
  {
    assert digits[0] != '-' && digits[0] != '+' by {
      assert IsDigit(digits[0]);
    }
    assert ("-" + digits)[1..] == digits;
  }

  lemma HexTextRoundTrip(n: int)
    ensures Numeral(HexText(n)) == Some(n)
  {
    var size: nat := if n < 0 then -n else n;
    NatTextIsNumeral(size);
    NumeralOfDigits(NatText(size));
  }

  lemma HexTextInjective(m: int, n: int)
    ensures HexText(m) == HexText(n) <==> m == n
  {
    HexTextRoundTrip(m);
    HexTextRoundTrip(n);
  }

  lemma {:induction false} LeadingZeros(zeros: string, digits: string)
    requires AllDigits(digits) && digits != ""
    requires forall i | 0 <= i < |zeros| :: zeros[i] == '0'
    ensures AllDigits(zeros + digits) && DigitsValue(zeros + digits) == DigitsValue(digits)
    decreases |digits|
  {
    var all := zeros + digits;
    assert all[..|all| - 1] == zeros + digits[..|digits| - 1];
    if |digits| == 1 {
      OnlyZeros(zeros);
      assert digits[..0] == "" && zeros + "" == zeros;
    } else {
      LeadingZeros(zeros, digits[..|digits| - 1]);
    }
  }

  lemma {:induction false} OnlyZeros(zeros: string)
    requires forall i | 0 <= i < |zeros| :: zeros[i] == '0'
    ensures AllDigits(zeros) && DigitsValue(zeros) == 0
  {
    if zeros != "" {
      OnlyZeros(zeros[..|zeros| - 1]);
    }
  }

  // ----- The string edits -----

  function Lower(s: string): (t: string)
    ensures |t| == |s|
  {
    seq(|s|, i requires 0 <= i < |s| => if 'A' <= s[i] <= 'Z' then s[i] - 'A' + 'a' else s[i])
  }

  predicate IsSpace(c: char) {
    c == ' ' || c == '\t' || c == '\n' || c == '\U{0B}' || c == '\U{0C}' || c == '\r'
  }

  predicate AllSpace(s: string) {
    forall i | 0 <= i < |s| :: IsSpace(s[i])
  }

  function TrimLeft(s: string): string {
    if s != "" && IsSpace(s[0]) then TrimLeft(s[1..]) else s
  }

  function TrimRight(s: string): string {
    if s != "" && IsSpace(s[|s| - 1]) then TrimRight(s[..|s| - 1]) else s
  }

  function TrimSpace(s: string): string {
    TrimRight(TrimLeft(s))
  }

  function TrimPrefix(s: string, prefix: string): string {
    if prefix <= s then s[|prefix|..] else s
  }

  /** strings.ReplaceAll(s, c, "") for both separators. */
  function Strip(s: string): string {
    if s == "" then ""
    else if s[0] == ':' || s[0] == ' ' then Strip(s[1..])
    else [s[0]] + Strip(s[1..])
  }

  const TAG := "serial="
  const RADIX := "0x"

  function Parsed(s: string): Option<int> {
    Numeral(Strip(TrimPrefix(TrimPrefix(Lower(TrimSpace(s)), TAG), RADIX)))
  }

  /** normalizeSerial: the canonical text, or None for "not a hex serial". */
  function Canonical(s: string): Option<string> {
    match Parsed(s)
    case None => None
    case Some(n) => Some(HexText(n))
  }

  // ----- Which texts stand for n -----

  /** Outer whitespace, a tag and a radix mark in any case, then digits with separators. */
  ghost predicate SpellsAs(s: string, n: int, lead: string, tag: string, radix: string, body: string, tail: string) {
    && s == lead + (tag + (radix + body)) + tail
    && AllSpace(lead) && AllSpace(tail)
    && (tag == "" || Lower(tag) == TAG)
    && (radix == "" || Lower(radix) == RADIX)
    && Numeral(Strip(Lower(body))) == Some(n)
  }

  ghost predicate Spells(s: string, n: int) {
    exists lead, tag, radix, body, tail :: SpellsAs(s, n, lead, tag, radix, body, tail)
  }

  lemma {:induction false} TrimLeftSplits(s: string) returns (lead: string)
    ensures AllSpace(lead) && s == lead + TrimLeft(s)
  {
    lead := "";
    if s != "" && IsSpace(s[0]) {
      lead := TrimLeftSplits(s[1..]);
      lead := [s[0]] + lead;
    }
  }

  lemma {:induction false} TrimRightSplits(s: string) returns (tail: string)
    ensures AllSpace(tail) && s == TrimRight(s) + tail
  {
    tail := "";
    if s != "" && IsSpace(s[|s| - 1]) {
      tail := TrimRightSplits(s[..|s| - 1]);
      tail := tail + [s[|s| - 1]];
    }
  }

  lemma TrimSpaceSplits(s: string) returns (lead: string, tail: string)
    ensures AllSpace(lead) && AllSpace(tail)
    ensures s == lead + TrimSpace(s) + tail
  {
    lead := TrimLeftSplits(s);
    tail := TrimRightSplits(TrimLeft(s));
  }

  lemma LowerAppend(s: string, t: string)
    ensures Lower(s + t) == Lower(s) + Lower(t)
  {
  }

  /** TrimPrefix on lower-cased text cuts the text itself at the mark. */
  lemma MarkSplits(s: string, mark: string) returns (front: string, rest: string)
    ensures s == front + rest
    ensures front == "" || Lower(front) == mark
    ensures TrimPrefix(Lower(s), mark) == Lower(rest)
  {
    var k := if mark <= Lower(s) then |mark| else 0;
    front, rest := s[..k], s[k..];
    LowerAppend(front, rest);
    assert s == front + rest;
  }

  lemma AcceptedIsSpelled(s: string, n: int)
    requires Parsed(s) == Some(n)
    ensures Spells(s, n)
  {
    var lead, tail := TrimSpaceSplits(s);
    var tag, rest := MarkSplits(TrimSpace(s), TAG);
    var radix, body := MarkSplits(rest, RADIX);
    assert SpellsAs(s, n, lead, tag, radix, body, tail);
  }

  /** Characters that can occur between the marks and the end. */
  predicate BodyChar(c: char) {
    c == ':' || c == ' ' || c == '+' || c == '-' || IsDigit(c)
  }

  lemma {:induction false} StripKeepsChars(s: string)
    ensures forall i | 0 <= i < |s| :: s[i] == ':' || s[i] == ' ' || s[i] in Strip(s)
  {
    if s != "" {
      StripKeepsChars(s[1..]);
      assert forall i | 1 <= i < |s| :: s[i] == s[1..][i - 1];
    }
  }

  lemma NumeralChars(s: string)
    requires Numeral(s).Some?
    ensures forall i | 0 <= i < |s| :: BodyChar(s[i]) && s[i] != ':' && s[i] != ' '
  {
    assert forall i | 1 <= i < |s| :: s[i] == s[1..][i - 1];
  }

  lemma BodyChars(body: string)
    requires Numeral(Strip(Lower(body))).Some?
    ensures forall i | 0 <= i < |body| :: BodyChar(Lower(body)[i])
  {
    StripKeepsChars(Lower(body));
    NumeralChars(Strip(Lower(body)));
  }

  lemma {:induction false} StripAppend(s: string, t: string)
    ensures Strip(s + t) == Strip(s) + Strip(t)
  {
    if s == "" {
      assert s + t == t;
    } else {
      assert (s + t)[1..] == s[1..] + t;
      StripAppend(s[1..], t);
    }
  }

  lemma {:induction false} StripSpaces(s: string)
    requires forall i | 0 <= i < |s| :: s[i] == ' '
    ensures Strip(s) == ""
  {
    if s != "" {
      StripSpaces(s[1..]);
    }
  }

  lemma {:induction false} TrimLeftAll(lead: string, rest: string)
    requires AllSpace(lead)
    ensures TrimLeft(lead + rest) == TrimLeft(rest)
  {
    if lead == "" {
      assert lead + rest == rest;
    } else {
      assert (lead + rest)[1..] == lead[1..] + rest;
      TrimLeftAll(lead[1..], rest);
    }
  }

  lemma {:induction false} TrimRightAll(rest: string, tail: string)
    requires AllSpace(tail)
    ensures TrimRight(rest + tail) == TrimRight(rest)
  {
    if tail == "" {
      assert rest + tail == rest;
    } else {
      assert (rest + tail)[..|rest + tail| - 1] == rest + tail[..|tail| - 1];
      TrimRightAll(rest, tail[..|tail| - 1]);
    }
  }

  /** Text that neither starts nor ends in whitespace is what TrimSpace leaves. */
  lemma TrimSpaceIs(lead: string, core: string, tail: string)
    requires AllSpace(lead) && AllSpace(tail)
    requires core != "" && !IsSpace(core[0]) && !IsSpace(core[|core| - 1])
    ensures TrimSpace(lead + core + tail) == core
  {
    assert lead + core + tail == lead + (core + tail);
    TrimLeftAll(lead, core + tail);
    assert (core + tail)[0] == core[0];
    TrimRightAll(core, tail);
  }

  /** A space-only stretch at either end of a body is ' ' only, and Strip drops it. */
  lemma OuterSpaces(lead: string, core: string, tail: string)
    requires Numeral(Strip(Lower(lead + core + tail))).Some?
    requires AllSpace(lead) && AllSpace(tail)
    ensures Strip(Lower(lead + core)) == Strip(Lower(lead + core + tail)) == Strip(Lower(core))
  {
    BodyChars(lead + core + tail);
    LowerAppend(lead + core, tail);
    LowerAppend(lead, core);
    var all := Lower(lead + core + tail);
    assert forall i | 0 <= i < |lead| :: Lower(lead)[i] == all[i];
    assert forall i | 0 <= i < |tail| :: Lower(tail)[i] == all[|lead + core| + i];
    SpaceIsBlank(lead);
    SpaceIsBlank(tail);
    StripAppend(Lower(lead + core), Lower(tail));
    StripAppend(Lower(lead), Lower(core));
  }

  lemma SpaceIsBlank(s: string)
    requires AllSpace(s) && forall i | 0 <= i < |s| :: BodyChar(Lower(s)[i])
    ensures Strip(Lower(s)) == ""
  {
    assert forall i | 0 <= i < |s| :: IsSpace(s[i]) && Lower(s)[i] == s[i];
    StripSpaces(Lower(s));
  }

  /** The body without its outer spaces, which Strip would remove anyway. */
  lemma TrimBody(body: string) returns (lead: string, core: string, tail: string)
    requires Numeral(Strip(Lower(body))).Some?
    ensures body == lead + core + tail && AllSpace(lead) && AllSpace(tail)
    ensures core != "" && !IsSpace(core[0]) && !IsSpace(core[|core| - 1])
    ensures Strip(Lower(lead + core)) == Strip(Lower(body)) == Strip(Lower(core))
  {
    lead, tail := TrimSpaceSplits(body);
    core := TrimSpace(body);
    OuterSpaces(lead, core, tail);
    TrimmedEnds(body);
  }

  lemma {:induction false} TrimmedEnds(s: string)
    ensures TrimSpace(s) != "" ==> !IsSpace(TrimSpace(s)[0]) && !IsSpace(TrimSpace(s)[|TrimSpace(s)| - 1])
  {
    TrimLeftStart(s);
    TrimRightEnd(TrimLeft(s));
  }

  lemma {:induction false} TrimLeftStart(s: string)
    ensures TrimLeft(s) != "" ==> !IsSpace(TrimLeft(s)[0])
  {
    if s != "" && IsSpace(s[0]) {
      TrimLeftStart(s[1..]);
    }
  }

  lemma {:induction false} TrimRightEnd(s: string)
    ensures TrimRight(s) <= s
    ensures TrimRight(s) != "" ==> !IsSpace(TrimRight(s)[|TrimRight(s)| - 1])
  {
    if s != "" && IsSpace(s[|s| - 1]) {
      TrimRightEnd(s[..|s| - 1]);
    }
  }

  lemma PrefixShows(mark: string, text: string)
    requires mark != "" && mark <= text
    ensures text[|mark| - 1] == mark[|mark| - 1]
  {
  }

  /** One mark comes off a text whose rest cannot be mistaken for it. */
  lemma MarkComesOff(mark: string, front: string, rest: string)
    requires mark != "" && (front == "" || Lower(front) == mark)
    requires front == "" ==> forall i | 0 <= i < |rest| :: Lower(rest)[i] != mark[|mark| - 1]
    ensures TrimPrefix(Lower(front + rest), mark) == Lower(rest)
  {
    LowerAppend(front, rest);
    if front == "" {
      assert front + rest == rest;
      if mark <= Lower(rest) {
        PrefixShows(mark, Lower(rest));
      }
    } else {
      assert Lower(front + rest)[|mark|..] == Lower(rest);
    }
  }

  /** With the outer whitespace gone, the marks come off and the body is read. */
  lemma MarksComeOff(tag: string, radix: string, body: string, n: int)
    requires tag == "" || Lower(tag) == TAG
    requires radix == "" || Lower(radix) == RADIX
    requires Numeral(Strip(Lower(body))) == Some(n)
    ensures Numeral(Strip(TrimPrefix(TrimPrefix(Lower(tag + (radix + body)), TAG), RADIX))) == Some(n)
  {
    BodyChars(body);
    LowerAppend(radix, body);
    assert forall i | 0 <= i < |radix| :: Lower(radix)[i] != '=';
    MarkComesOff(TAG, tag, radix + body);
    MarkComesOff(RADIX, radix, body);
  }

  lemma BareSpelling(lead: string, body: string, tail: string, n: int)
    requires AllSpace(lead) && AllSpace(tail)
    requires Numeral(Strip(Lower(body))) == Some(n)
    ensures Parsed(lead + body + tail) == Some(n)
  {
    var lead', core, tail' := TrimBody(body);
    assert lead + body + tail == (lead + lead') + core + (tail' + tail);
    TrimSpaceIs(lead + lead', core, tail' + tail);
    MarksComeOff("", "", core, n);
    assert "" + ("" + core) == core;
  }

  lemma TrimSpaceTail(lead: string, text: string, inner: string, tail: string)
    requires AllSpace(lead) && AllSpace(inner) && AllSpace(tail)
    requires text != "" && !IsSpace(text[0]) && !IsSpace(text[|text| - 1])
    ensures TrimSpace(lead + (text + inner) + tail) == text
  {
    assert lead + (text + inner) + tail == lead + text + (inner + tail);
    TrimSpaceIs(lead, text, inner + tail);
  }

  lemma MarkedText(tag: string, radix: string, rest: string)
    requires tag + radix != "" && rest != ""
    ensures var text := tag + (radix + rest);
            text[0] == (tag + radix)[0] && text[|text| - 1] == rest[|rest| - 1]
  {
    assert tag + (radix + rest) == (tag + radix) + rest;
  }

  lemma MarkedSpelling(lead: string, tag: string, radix: string, body: string, tail: string, n: int)
    requires AllSpace(lead) && AllSpace(tail)
    requires tag == "" || Lower(tag) == TAG
    requires radix == "" || Lower(radix) == RADIX
    requires tag + radix != ""
    requires Numeral(Strip(Lower(body))) == Some(n)
    ensures Parsed(lead + (tag + (radix + body)) + tail) == Some(n)
  {
    var lead', core, tail' := TrimBody(body);
    var text := tag + (radix + (lead' + core));
    MarkStart(tag, radix);
    MarkedText(tag, radix, lead' + core);
    Reassociate(radix, lead' + core, tail');
    Reassociate(tag, radix + (lead' + core), tail');
    TrimSpaceTail(lead, text, tail', tail);
    MarksComeOff(tag, radix, lead' + core, n);
  }

  lemma SpelledIsAccepted(n: int, lead: string, tag: string, radix: string, body: string, tail: string)
    requires SpellsAs(lead + (tag + (radix + body)) + tail, n, lead, tag, radix, body, tail)
    ensures Parsed(lead + (tag + (radix + body)) + tail) == Some(n)
  {
    if tag + radix == "" {
      assert tag + (radix + body) == body;
      BareSpelling(lead, body, tail, n);
    } else {
      MarkedSpelling(lead, tag, radix, body, tail, n);
    }
  }

  lemma MarkStart(tag: string, radix: string)
    requires tag == "" || Lower(tag) == TAG
    requires radix == "" || Lower(radix) == RADIX
    ensures tag + radix != "" ==> !IsSpace((tag + radix)[0])
  {
    assert tag != "" ==> Lower(tag)[0] == 's';
    assert radix != "" ==> Lower(radix)[0] == '0';
  }

  /** Exactly the decorated spellings of n are accepted, and they are read as n. */
  lemma AcceptsExactlySpellings(s: string, n: int)
    ensures Parsed(s) == Some(n) <==> Spells(s, n)
    ensures Canonical(s) == Some(HexText(n)) <==> Spells(s, n)
  {
    if Parsed(s) == Some(n) {
      AcceptedIsSpelled(s, n);
    }
    if Spells(s, n) {
      var lead, tag, radix, body, tail :| SpellsAs(s, n, lead, tag, radix, body, tail);
      SpelledIsAccepted(n, lead, tag, radix, body, tail);
    }
    if Parsed(s).Some? {
      HexTextInjective(Parsed(s).value, n);
    }
  }

  /** Two accepted texts have one canonical form exactly when they denote one integer. */
  lemma SameCanonicalSameInteger(s: string, t: string, m: int, n: int)
    requires Spells(s, m) && Spells(t, n)
    ensures Canonical(s) == Canonical(t) <==> m == n
  {
    AcceptsExactlySpellings(s, m);
    AcceptsExactlySpellings(t, n);
    HexTextInjective(m, n);
  }

  lemma NumeralWithZeros(zeros: string, n: nat)
    requires forall i | 0 <= i < |zeros| :: zeros[i] == '0'
    ensures Numeral(zeros + HexText(n)) == Some(n)
  {
    NatTextIsNumeral(n);
    LeadingZeros(zeros, HexText(n));
    NumeralOfDigits(zeros + HexText(n));
  }

  /** The canonical form of a serial, its decorations included, for every integer n >= 0. */
  lemma DecoratedSerial(n: nat, lead: string, tag: string, radix: string, body: string, zeros: string, tail: string)
    requires AllSpace(lead) && AllSpace(tail)
    requires tag == "" || Lower(tag) == TAG
    requires radix == "" || Lower(radix) == RADIX
    requires Strip(Lower(body)) == zeros + HexText(n)
    requires forall i | 0 <= i < |zeros| :: zeros[i] == '0'
    ensures Canonical(lead + (tag + (radix + body)) + tail) == Some(HexText(n))
  {
    NumeralWithZeros(zeros, n);
    SpelledIsAccepted(n, lead, tag, radix, body, tail);
  }

  /** The text of a serial is its own spelling, with nothing to edit. */
  lemma HexTextIsBare(n: int)
    ensures Strip(Lower(HexText(n))) == HexText(n)
  {
    HexTextRoundTrip(n);
    NumeralChars(HexText(n));
    LowerNothing(HexText(n));
    StripNothing(HexText(n));
  }

  lemma HexTextParses(n: int)
    ensures Parsed(HexText(n)) == Some(n)
  {
    var text := HexText(n);
    HexTextIsBare(n);
    HexTextRoundTrip(n);
    BareSpelling("", text, "", n);
    assert "" + text + "" == text;
  }

  /** Normalizing the canonical form changes nothing. */
  lemma CanonicalIdempotent(s: string)
    requires Canonical(s).Some?
    ensures Canonical(Canonical(s).value) == Canonical(s)
  {
    HexTextParses(Parsed(s).value);
  }

  lemma LowerNothing(s: string)
    requires forall i | 0 <= i < |s| :: BodyChar(s[i])
    ensures Lower(s) == s
  {
  }

  lemma {:induction false} StripNothing(s: string)
    requires forall i | 0 <= i < |s| :: s[i] != ':' && s[i] != ' '
    ensures Strip(s) == s
  {
    if s != "" {
      StripNothing(s[1..]);
    }
  }

  // ----- Case and separators, as they are typed -----

  /** The same letter, one of them perhaps a capital. */
  predicate SameLetter(a: char, b: char) {
    || a == b
    || ('A' <= a <= 'Z' && b as int == a as int + 32)
    || ('A' <= b <= 'Z' && a as int == b as int + 32)
  }

  predicate SameButForCase(s: string, t: string) {
    |s| == |t| && forall i | 0 <= i < |s| :: SameLetter(s[i], t[i])
  }

  lemma LowerForgetsCase(s: string, t: string)
    requires SameButForCase(s, t)
    ensures Lower(s) == Lower(t)
  {
    assert forall i | 0 <= i < |s| :: SameLetter(s[i], t[i]) && Lower(s)[i] == Lower(t)[i];
  }

  lemma {:induction false} LowerTrimLeft(s: string)
    ensures Lower(TrimLeft(s)) == TrimLeft(Lower(s))
  {
    if s != "" && IsSpace(s[0]) {
      LowerTrimLeft(s[1..]);
      assert Lower(s)[1..] == Lower(s[1..]);
    }
  }

  lemma {:induction false} LowerTrimRight(s: string)
    ensures Lower(TrimRight(s)) == TrimRight(Lower(s))
  {
    if s != "" && IsSpace(s[|s| - 1]) {
      LowerTrimRight(s[..|s| - 1]);
      assert Lower(s)[..|s| - 1] == Lower(s[..|s| - 1]);
    }
  }

  /** Texts that differ in case only are read alike. */
  lemma CaseIsIgnored(s: string, t: string)
    requires SameButForCase(s, t)
    ensures Parsed(s) == Parsed(t) && Canonical(s) == Canonical(t)
  {
    LowerForgetsCase(s, t);
    LowerTrimLeft(s);
    LowerTrimLeft(t);
    LowerTrimRight(TrimLeft(s));
    LowerTrimRight(TrimLeft(t));
  }

  predicate IsHexDigit(c: char) {
    '0' <= c <= '9' || 'a' <= c <= 'f' || 'A' <= c <= 'F'
  }

  function HexValue(c: char): nat
    requires IsHexDigit(c)
  {
    if c <= '9' then c as nat - 48 else if c <= 'F' then c as nat - 55 else c as nat - 87
  }

  predicate IsBlank(s: string) {
    forall i | 0 <= i < |s| :: s[i] == ' ' || s[i] == '\t' || s[i] == '\r' || s[i] == '\n'
  }

  /** Digits of either case, with colons and spaces anywhere among them. */
  predicate IsTyped(body: string) {
    forall i | 0 <= i < |body| :: IsHexDigit(body[i]) || body[i] == ':' || body[i] == ' '
  }

  /** The number typed, digit by digit, separators passed over. */
  function TypedValue(body: string): nat
    requires IsTyped(body)
  {
    if body == "" then 0
    else
      var front, c := TypedValue(body[..|body| - 1]), body[|body| - 1];
      if IsHexDigit(c) then 16 * front + HexValue(c) else front
  }

  lemma {:induction false} TypedIsNumeral(body: string)
    requires IsTyped(body)
    ensures var digits := Strip(Lower(body));
      && AllDigits(digits) && DigitsValue(digits) == TypedValue(body)
      && ((exists i | 0 <= i < |body| :: IsHexDigit(body[i])) ==> digits != "")
  {
    if body != "" {
      var front, c := body[..|body| - 1], body[|body| - 1];
      assert body == front + [c];
      TypedIsNumeral(front);
      var d := TypedSnoc(front, c);
      if IsHexDigit(c) {
        NumeralSnoc(Strip(Lower(front)), d);
      }
    }
  }

  lemma TypedSnoc(front: string, c: char) returns (d: char)
    requires IsHexDigit(c) || c == ':' || c == ' '
    ensures IsHexDigit(c) ==>
      Strip(Lower(front + [c])) == Strip(Lower(front)) + [d] && IsDigit(d) && DigitValue(d) == HexValue(c)
    ensures !IsHexDigit(c) ==> Strip(Lower(front + [c])) == Strip(Lower(front))
  {
    d := Lower([c])[0];
    LowerAppend(front, [c]);
    StripAppend(Lower(front), Lower([c]));
    assert Lower([c]) == [d];
    assert [d][1..] == "";
    assert Strip([d]) == if IsHexDigit(c) then [d] else "";
  }

  lemma NumeralSnoc(digits: string, c: char)
    requires AllDigits(digits) && IsDigit(c)
    ensures AllDigits(digits + [c]) && DigitsValue(digits + [c]) == 16 * DigitsValue(digits) + DigitValue(c)
  {
    assert (digits + [c])[..|digits|] == digits;
  }

  /**
   A serial as it may be typed or pasted, in words that say nothing of the edits:
   whitespace around it, "serial=" and "0x" in front in any case, and digits of either
   case with colons and spaces. It is read as the number its digits spell.
   */
  lemma TypedSerialIsRead(lead: string, tag: string, radix: string, body: string, tail: string)
    requires IsBlank(lead) && IsBlank(tail)
    requires tag == "" || SameButForCase(tag, "serial=")
    requires radix == "" || SameButForCase(radix, "0x")
    requires IsTyped(body) && exists i | 0 <= i < |body| :: IsHexDigit(body[i])
    ensures Canonical(lead + (tag + (radix + body)) + tail) == Some(HexText(TypedValue(body)))
  {
    TypedBody(body);
    MarksInAnyCase(tag, radix);
    BlankIsSpace(lead);
    BlankIsSpace(tail);
    SpelledIsAccepted(TypedValue(body), lead, tag, radix, body, tail);
  }

  lemma TypedBody(body: string)
    requires IsTyped(body) && exists i | 0 <= i < |body| :: IsHexDigit(body[i])
    ensures Numeral(Strip(Lower(body))) == Some(TypedValue(body))
  {
    TypedIsNumeral(body);
    NumeralOfDigits(Strip(Lower(body)));
  }

  lemma BlankIsSpace(s: string)
    requires IsBlank(s)
    ensures AllSpace(s)
  {
  }

  lemma MarksAreLower()
    ensures Lower("serial=") == TAG && Lower("0x") == RADIX
  {
  }

  lemma MarksInAnyCase(tag: string, radix: string)
    requires tag == "" || SameButForCase(tag, "serial=")
    requires radix == "" || SameButForCase(radix, "0x")
    ensures tag == "" || Lower(tag) == TAG
    ensures radix == "" || Lower(radix) == RADIX
  {
    MarksAreLower();
    if tag != "" {
      LowerForgetsCase(tag, "serial=");
    }
    if radix != "" {
      LowerForgetsCase(radix, "0x");
    }
  }

  /** The canonical text starts with a zero only if it is "0". */
  lemma {:induction false} NoLeadingZero(n: nat)
    ensures HexText(n) == "0" || (HexText(n) != "" && HexText(n)[0] != '0')
  {
    if n >= 16 {
      NoLeadingZero(n / 16);
      NatTextIsNumeral(n / 16);
    }
  }

  // ----- What the documentation promises -----

  /** Deletes colons and whitespace of any kind. */
  function Squeeze(s: string): string {
    if s == "" then ""
    else if s[0] == ':' || IsSpace(s[0]) then Squeeze(s[1..])
    else [s[0]] + Squeeze(s[1..])
  }

  /** The documented reading: colons, whitespace and the two leading marks are ignored. */
  function Promised(s: string): Option<int> {
    Numeral(TrimPrefix(TrimPrefix(Squeeze(Lower(s)), TAG), RADIX))
  }

  /** Inner whitespace is spaces only, and no separator stands in front of a mark or inside it. */
  predicate PlainlyWritten(s: string) {
    var text := Lower(TrimSpace(s));
    var rest := TrimPrefix(text, TAG);
    && (forall i | 0 <= i < |text| :: IsSpace(text[i]) ==> text[i] == ' ')
    && (TAG <= Squeeze(text) ==> TAG <= text)
    && (RADIX <= Squeeze(rest) ==> RADIX <= rest)
  }

  lemma {:induction false} SqueezeAppend(s: string, t: string)
    ensures Squeeze(s + t) == Squeeze(s) + Squeeze(t)
  {
    if s == "" {
      assert s + t == t;
    } else {
      assert (s + t)[1..] == s[1..] + t;
      SqueezeAppend(s[1..], t);
    }
  }

  lemma {:induction false} SqueezeSeparators(s: string)
    requires forall i | 0 <= i < |s| :: s[i] == ':' || IsSpace(s[i])
    ensures Squeeze(s) == ""
  {
    if s != "" {
      SqueezeSeparators(s[1..]);
    }
  }

  lemma {:induction false} SqueezeIsStrip(s: string)
    requires forall i | 0 <= i < |s| :: IsSpace(s[i]) ==> s[i] == ' '
    ensures Squeeze(s) == Strip(s)
  {
    if s != "" {
      SqueezeIsStrip(s[1..]);
    }
  }

  lemma {:induction false} SqueezeAddsNothing(s: string, c: char)
    requires c in Squeeze(s)
    ensures c in s
  {
    if s[0] == ':' || IsSpace(s[0]) || c != s[0] {
      SqueezeAddsNothing(s[1..], c);
    }
  }

  /** Outer whitespace is deleted either way. */
  lemma SqueezeTrimmed(s: string)
    ensures Squeeze(Lower(s)) == Squeeze(Lower(TrimSpace(s)))
  {
    var lead, tail := TrimSpaceSplits(s);
    LowerAppend(lead + TrimSpace(s), tail);
    LowerAppend(lead, TrimSpace(s));
    SqueezeAppend(Lower(lead + TrimSpace(s)), Lower(tail));
    SqueezeAppend(Lower(lead), Lower(TrimSpace(s)));
    assert forall i | 0 <= i < |lead| :: IsSpace(lead[i]) && Lower(lead)[i] == lead[i];
    assert forall i | 0 <= i < |tail| :: IsSpace(tail[i]) && Lower(tail)[i] == tail[i];
    SqueezeSeparators(Lower(lead));
    SqueezeSeparators(Lower(tail));
  }

  /** Where the deletion uncovers no mark, taking the mark off and deleting commute. */
  lemma MarkCommutes(text: string, mark: string)
    requires Squeeze(mark) == mark
    requires mark <= Squeeze(text) ==> mark <= text
    ensures TrimPrefix(Squeeze(text), mark) == Squeeze(TrimPrefix(text, mark))
  {
    if mark <= text {
      assert text == mark + text[|mark|..];
      SqueezeAppend(mark, text[|mark|..]);
    }
  }

  lemma MarksAreDense()
    ensures Squeeze(TAG) == TAG && Squeeze(RADIX) == RADIX
  {
    SqueezeDense(TAG);
    SqueezeDense(RADIX);
  }

  lemma {:induction false} SqueezeDense(s: string)
    requires forall i | 0 <= i < |s| :: s[i] != ':' && !IsSpace(s[i])
    ensures Squeeze(s) == s
  {
    if s != "" {
      SqueezeDense(s[1..]);
    }
  }

  lemma PlainIsPromised(s: string)
    requires PlainlyWritten(s)
    ensures Parsed(s) == Promised(s)
  {
    var text := Lower(TrimSpace(s));
    var rest := TrimPrefix(text, TAG);
    SqueezeTrimmed(s);
    MarksAreDense();
    MarkCommutes(text, TAG);
    MarkCommutes(rest, RADIX);
    SqueezeIsStrip(TrimPrefix(rest, RADIX));
  }

  /** A character outside bodies that deletion leaves over was in the part in front of the body. */
  lemma NotFromTheBody(front: string, body: string, c: char)
    requires forall i | 0 <= i < |body| :: BodyChar(body[i])
    requires !BodyChar(c) && c in Squeeze(front + body)
    ensures c in front
  {
    SqueezeAddsNothing(front + body, c);
  }

  /** What a readable body and the text in front of it can contain. */
  lemma BodyIsPlain(front: string, body: string)
    requires Numeral(Strip(body)).Some?
    requires forall i | 0 <= i < |front| :: !IsSpace(front[i])
    ensures forall i | 0 <= i < |body| :: BodyChar(body[i])
    ensures forall i | 0 <= i < |front + body| :: IsSpace((front + body)[i]) ==> (front + body)[i] == ' '
  {
    StripKeepsChars(body);
    NumeralChars(Strip(body));
  }

  lemma PrefixMark(text: string, mark: string) returns (front: string)
    ensures text == front + TrimPrefix(text, mark) && (front == "" || front == mark)
    ensures mark <= text ==> front == mark
  {
    front := if mark <= text then mark else "";
  }

  /** A mark that a deletion would uncover has to be there already, or the body is unreadable. */
  lemma NoHiddenMark(text: string, mark: string, front: string, body: string, k: nat)
    requires k < |mark| && !BodyChar(mark[k]) && mark[k] !in front
    requires text == front + body && forall i | 0 <= i < |body| :: BodyChar(body[i])
    ensures !(mark <= Squeeze(text))
  {
    if mark <= Squeeze(text) {
      assert Squeeze(text)[k] == mark[k];
      NotFromTheBody(front, body, mark[k]);
    }
  }

  lemma MarksHoldNoSpace(tag: string, radix: string)
    requires (tag == "" || tag == TAG) && (radix == "" || radix == RADIX)
    ensures forall i | 0 <= i < |tag + radix| :: !IsSpace((tag + radix)[i])
  {
    assert forall i | 0 <= i < |tag| :: !IsSpace(tag[i]);
    assert forall i | 0 <= i < |radix| :: !IsSpace(radix[i]);
  }

  lemma AcceptedIsPlain(s: string)
    requires Parsed(s).Some?
    ensures PlainlyWritten(s)
  {
    var text := Lower(TrimSpace(s));
    var rest := TrimPrefix(text, TAG);
    var body := TrimPrefix(rest, RADIX);
    var tag := PrefixMark(text, TAG);
    var radix := PrefixMark(rest, RADIX);
    Reassociate(tag, radix, body);
    MarksHoldNoSpace(tag, radix);
    BodyIsPlain(tag + radix, body);
    if !(TAG <= text) {
      assert tag == "" && text == radix + body;
      NoHiddenMark(text, TAG, radix, body, 0);
    }
    if !(RADIX <= rest) {
      NoHiddenMark(rest, RADIX, radix, body, 1);
    }
  }

  /**
   The documentation says that colons, whitespace and the leading marks are
   ignored. The code keeps that exactly for texts written plainly, and refuses
   all others; it never reads a text as another serial.
   */
  lemma PromiseKeptExactly(s: string)
    ensures Parsed(s) == if PlainlyWritten(s) then Promised(s) else None
  {
    if PlainlyWritten(s) {
      PlainIsPromised(s);
    } else if Parsed(s).Some? {
      AcceptedIsPlain(s);
    }
  }

  /** So whitespace other than a space, once it is inside, makes the text unreadable. */
  lemma InnerWhitespaceIsRefused(s: string, i: nat)
    requires i < |s| && IsSpace(s[i]) && s[i] != ' '
    requires !IsSpace(s[0]) && !IsSpace(s[|s| - 1])
    ensures Canonical(s) == None
  {
    TrimSpaceIs("", s, "");
    assert "" + s + "" == s;
    assert Lower(s)[i] == s[i];
    PromiseKeptExactly(s);
  }

  predicate AreSeparators(s: string) {
    forall i | 0 <= i < |s| :: s[i] == ' ' || s[i] == ':'
  }

  /** Text in lower case whose ends are not whitespace is left alone by the first two edits. */
  lemma AlreadyTidy(text: string)
    requires text != "" && !IsSpace(text[0]) && !IsSpace(text[|text| - 1])
    requires forall i | 0 <= i < |text| :: !('A' <= text[i] <= 'Z')
    ensures Lower(TrimSpace(text)) == text && Lower(text) == text
  {
    TrimSpaceIs("", text, "");
    assert "" + text + "" == text;
  }

  lemma TaggedIsTidy(rest: string)
    requires rest != "" && IsDigit(rest[|rest| - 1])
    requires forall i | 0 <= i < |rest| :: !('A' <= rest[i] <= 'Z')
    ensures Lower(TrimSpace(TAG + rest)) == TAG + rest && Lower(TAG + rest) == TAG + rest
  {
    AlreadyTidy(TAG + rest);
  }

  lemma AfterTheTag(rest: string)
    ensures TrimPrefix(TAG + rest, TAG) == rest
    ensures TAG <= TAG + rest
    ensures Squeeze(TAG + rest) == TAG + Squeeze(rest)
  {
    MarksAreDense();
    SqueezeAppend(TAG, rest);
  }

  /** And so does a separator in front of the radix mark, where nothing but spaces need be inside. */
  lemma SeparatedRadixIsRefused(separators: string, digits: string)
    requires separators != "" && AreSeparators(separators)
    requires digits != "" && AllDigits(digits)
    ensures var s := TAG + (separators + (RADIX + digits));
            Promised(s) == Some(DigitsValue(digits)) && Canonical(s) == None
  {
    var rest := separators + (RADIX + digits);
    RestOfSeparated(separators, digits);
    TaggedIsTidy(rest);
    AfterTheTag(rest);
    SeparatorsVanish(separators, digits);
    NumeralOfDigits(digits);
    AfterTheTag(RADIX + digits);
    assert TrimPrefix(RADIX + digits, RADIX) == digits;
    PromiseKeptExactly(TAG + rest);
  }

  lemma RestOfSeparated(separators: string, digits: string)
    requires separators != "" && AreSeparators(separators)
    requires digits != "" && AllDigits(digits)
    ensures var rest := separators + (RADIX + digits);
            && IsDigit(rest[|rest| - 1]) && !(RADIX <= rest)
            && forall i | 0 <= i < |rest| :: !('A' <= rest[i] <= 'Z')
  {
    var rest := separators + (RADIX + digits);
    assert rest[0] == separators[0];
  }

  lemma SeparatorsVanish(separators: string, digits: string)
    requires AreSeparators(separators) && AllDigits(digits)
    ensures Squeeze(separators + (RADIX + digits)) == RADIX + digits
  {
    SqueezeAppend(separators, RADIX + digits);
    SqueezeDense(RADIX + digits);
    SqueezeSeparators(separators);
  }
}
