/** The two text helpers of the page: the duration label of `formatTime`
    and the HTML escaping of `escapeHtml`. */
module Format {
  import opened Js

  // ---- Decimal numerals ----

  predicate AllDigits(s: string) {
    forall k :: 0 <= k < |s| ==> IsDigit(s[k])
  }

  function DigitChar(d: nat): (c: char)
    requires d < 10
    ensures IsDigit(c)
  {
    ('0' as int + d) as char
  }

  function DigitValue(c: char): nat
    requires IsDigit(c)
  {
    c as int - '0' as int
  }

  /** A non-negative integer as `${n}` writes it. */
  function Decimal(n: nat): (s: string)
    ensures s != [] && AllDigits(s)
    decreases n
  {
    if n < 10 then [DigitChar(n)] else Decimal(n / 10) + [DigitChar(n % 10)]
  }

  /** The value of a run of decimal digits. */
  function DigitsValue(s: string): nat
    requires AllDigits(s)
  {
    if s == [] then 0 else 10 * DigitsValue(s[..|s| - 1]) + DigitValue(s[|s| - 1])
  }

  /** Reading a numeral back gives the number. */
  lemma {:induction false} DecimalRoundTrip(n: nat)
    ensures DigitsValue(Decimal(n)) == n
    decreases n
  {
    if n >= 10 {
      DecimalRoundTrip(n / 10);
      var s := Decimal(n);
      assert s[..|s| - 1] == Decimal(n / 10);
    }
  }

  /** The length of the run of digits `s` starts with. */
  function LeadingDigits(s: string): (k: nat)
    ensures k <= |s| && AllDigits(s[..k])
    ensures k < |s| ==> !IsDigit(s[k])
  {
    if s != [] && IsDigit(s[0]) then
      var k := 1 + LeadingDigits(s[1..]);
      assert s[..k] == [s[0]] + s[1..][..k - 1];
      k
    else 0
  }

  lemma {:induction false} LeadingDigitsOf(d: string, rest: string)
    requires AllDigits(d)
    requires rest == [] || !IsDigit(rest[0])
    ensures LeadingDigits(d + rest) == |d|
  {
    if d != [] {
      assert (d + rest)[1..] == d[1..] + rest;
      LeadingDigitsOf(d[1..], rest);
    }
  }

  // ---- formatTime ----

  /** `formatTime(ms)`: "0m" for zero or a negative value, "< 1m" under a
      minute, otherwise the label of the whole minutes. */
  function FormatTime(ms: int): string {
    if ms <= 0 then "0m"
    else if ms / 60000 < 1 then "< 1m"
    else MinutesLabel(ms / 60000 / 60, ms / 60000 % 60)
  }

  /** Whole hours and remaining minutes, each written only when non-zero,
      with the separating space trimmed off the end. */
  function MinutesLabel(hours: nat, minutes: nat): string {
    Trim((if hours > 0 then Decimal(hours) + "h " else "") + (if minutes > 0 then Decimal(minutes) + "m" else ""))
  }

  lemma {:induction false} TrimKeeps(s: string)
    requires s != [] && !IsSpace(s[0]) && !IsSpace(s[|s| - 1])
    ensures Trim(s) == s
  {
  }

  lemma {:induction false} TrimDropsOneSpace(s: string)
    requires s != [] && !IsSpace(s[0]) && !IsSpace(s[|s| - 1])
    ensures Trim(s + " ") == s
  {
    assert (s + " ")[0] == s[0];
    assert TrimStart(s + " ") == s + " ";
    assert (s + " ")[..|s|] == s;
    assert TrimEnd(s) == s;
  }

  lemma {:induction false} LabelHoursAndMinutes(dh: string, dm: string)
    requires dh != [] && AllDigits(dh) && dm != [] && AllDigits(dm)
    ensures Trim((dh + "h ") + (dm + "m")) == dh + ("h " + (dm + "m"))
  {
    var s := (dh + "h ") + (dm + "m");
    assert s == dh + ("h " + (dm + "m"));
    assert s[0] == dh[0] && s[|s| - 1] == 'm';
    TrimKeeps(s);
  }

  lemma {:induction false} LabelHours(dh: string)
    requires dh != [] && AllDigits(dh)
    ensures Trim(dh + "h " + "") == dh + "h"
  {
    var s := dh + "h";
    assert s[0] == dh[0] && s[|s| - 1] == 'h';
    TrimDropsOneSpace(s);
    assert dh + "h " + "" == s + " ";
  }

  lemma {:induction false} LabelMinutes(dm: string)
    requires dm != [] && AllDigits(dm)
    ensures Trim("" + (dm + "m")) == dm + "m"
  {
    var s := dm + "m";
    assert s[0] == dm[0] && s[|s| - 1] == 'm';
    TrimKeeps(s);
    assert "" + s == s;
  }

  /** The three shapes of a label: "Hh Mm", "Hh" on a whole hour, and "Mm"
      under an hour. */
  lemma {:induction false} MinutesLabelForms(h: nat, m: nat)
    ensures h > 0 && m > 0 ==> MinutesLabel(h, m) == Decimal(h) + ("h " + (Decimal(m) + "m"))
    ensures h > 0 && m == 0 ==> MinutesLabel(h, m) == Decimal(h) + "h"
    ensures h == 0 && m > 0 ==> MinutesLabel(h, m) == Decimal(m) + "m"
  {
    if h > 0 && m > 0 {
      LabelHoursAndMinutes(Decimal(h), Decimal(m));
    } else if h > 0 {
      LabelHours(Decimal(h));
    } else if m > 0 {
      LabelMinutes(Decimal(m));
    }
  }

  /** Reads a label in one of those shapes back as a number of minutes. */
  function ParseDuration(s: string): Option<nat> {
    var i := LeadingDigits(s);
    if i == 0 || i == |s| then None else ParseUnit(DigitsValue(s[..i]), s[i..])
  }

  /** What follows the leading number: "m", "h", or "h " and a minutes part. */
  function ParseUnit(n: nat, u: string): Option<nat> {
    if u == "m" then Some(n)
    else if u == "h" then Some(60 * n)
    else if |u| >= 2 && u[0] == 'h' && u[1] == ' ' then
      match ParseMinutesPart(u[2..])
      case Some(k) => Some(60 * n + k)
      case None => None
    else None
  }

  function ParseMinutesPart(r: string): Option<nat> {
    var j := LeadingDigits(r);
    if 0 < j && r[j..] == "m" then Some(DigitsValue(r[..j])) else None
  }

  lemma {:induction false} ParseNumberThen(d: string, u: string)
    requires d != [] && AllDigits(d) && u != [] && !IsDigit(u[0])
    ensures ParseDuration(d + u) == ParseUnit(DigitsValue(d), u)
  {
    LeadingDigitsOf(d, u);
    assert (d + u)[..|d|] == d && (d + u)[|d|..] == u;
  }

  lemma {:induction false} ParseMinutesOf(dm: string)
    requires dm != [] && AllDigits(dm)
    ensures ParseMinutesPart(dm + "m") == Some(DigitsValue(dm))
  {
    LeadingDigitsOf(dm, "m");
    assert (dm + "m")[..|dm|] == dm && (dm + "m")[|dm|..] == "m";
  }

  lemma {:induction false} ParseHoursAndMinutes(dh: string, dm: string)
    requires dh != [] && AllDigits(dh) && dm != [] && AllDigits(dm)
    ensures ParseDuration(dh + ("h " + (dm + "m"))) == Some(60 * DigitsValue(dh) + DigitsValue(dm))
  {
    var u := "h " + (dm + "m");
    assert u[0] == 'h';
    ParseNumberThen(dh, u);
    HoursThenMinutes(DigitsValue(dh), dm);
  }

  lemma {:induction false} HoursThenMinutes(n: nat, dm: string)
    requires dm != [] && AllDigits(dm)
    ensures ParseUnit(n, "h " + (dm + "m")) == Some(60 * n + DigitsValue(dm))
  {
    var u := "h " + (dm + "m");
    assert |u| == |dm| + 3;
    assert u != "m" && u != "h";
    assert u[0] == 'h' && u[1] == ' ';
    assert u[2..] == dm + "m";
    ParseMinutesOf(dm);
  }

  lemma {:induction false} LabelValue(shown: string, h: nat, m: nat)
    requires h > 0 || m > 0
    requires h > 0 && m > 0 ==> shown == Decimal(h) + ("h " + (Decimal(m) + "m"))
    requires h > 0 && m == 0 ==> shown == Decimal(h) + "h"
    requires h == 0 && m > 0 ==> shown == Decimal(m) + "m"
    ensures ParseDuration(shown) == Some(60 * h + m)
  {
    DecimalRoundTrip(h);
    DecimalRoundTrip(m);
    if h > 0 && m > 0 {
      ParseHoursAndMinutes(Decimal(h), Decimal(m));
    } else if h > 0 {
      ParseNumberThen(Decimal(h), "h");
      assert ParseUnit(DigitsValue(Decimal(h)), "h") == Some(60 * h);
    } else {
      ParseNumberThen(Decimal(m), "m");
      assert ParseUnit(DigitsValue(Decimal(m)), "m") == Some(m);
    }
  }

  /** A label reads back as the minutes it was made from. */
  lemma {:induction false} MinutesLabelRoundTrip(h: nat, m: nat)
    requires h > 0 || m > 0
    ensures ParseDuration(MinutesLabel(h, m)) == Some(60 * h + m)
  {
    MinutesLabelForms(h, m);
    LabelValue(MinutesLabel(h, m), h, m);
  }

  lemma {:induction false} MinuteSplit(ms: int)
    requires ms >= 60000
    ensures var t := ms / 60000; 60 * (t / 60) + t % 60 == t && (t / 60 > 0 || t % 60 > 0)
  {
  }

  /** From sixty seconds on, `formatTime` writes the label of the whole
      hours and the remaining minutes. */
  lemma {:induction false} FormatTimeIsLabel(ms: int, h: nat, m: nat)
    requires ms >= 60000
    requires h == ms / 60000 / 60 && m == ms / 60000 % 60
    ensures FormatTime(ms) == MinutesLabel(h, m)
  {
  }

  lemma {:induction false} FormatTimeValue(ms: int, h: nat, m: nat)
    requires ms >= 60000
    requires h == ms / 60000 / 60 && m == ms / 60000 % 60
    requires ParseDuration(MinutesLabel(h, m)) == Some(60 * h + m)
    ensures ParseDuration(FormatTime(ms)) == Some(ms / 60000)
  {
    assert 60 * h + m == ms / 60000;
    assert FormatTime(ms) == MinutesLabel(h, m);
  }

  /** A label of at least a minute loses nothing but the seconds: it reads
      back as the whole number of minutes in `ms`. */
  lemma {:induction false} FormatTimeRoundTrip(ms: int)
    requires ms >= 60000
    ensures ParseDuration(FormatTime(ms)) == Some(ms / 60000)
  {
    MinuteSplit(ms);
    var h: nat, m: nat := ms / 60000 / 60, ms / 60000 % 60;
    MinutesLabelRoundTrip(h, m);
    FormatTimeValue(ms, h, m);
  }

  /** Zero and negative values, and values under a minute. */
  lemma {:induction false} FormatTimeUnderAMinute()
    ensures forall ms :: ms <= 0 ==> FormatTime(ms) == "0m"
    ensures forall ms :: 0 < ms < 60000 ==> FormatTime(ms) == "< 1m"
  {
  }

  lemma {:induction false} WholeHoursLabel(h: nat)
    requires h > 0
    ensures MinutesLabel(h, 0) == Decimal(h) + "h"
  {
    MinutesLabelForms(h, 0);
  }

  lemma {:induction false} OneHourText(h: nat)
    requires h == 1
    ensures Decimal(h) + "h" == "1h"
  {
    assert Decimal(h) == "1";
  }

  lemma {:induction false} QuarterPastLabel(h: nat, m: nat)
    requires h == 1 && m == 15
    ensures MinutesLabel(h, m) == "1h 15m"
  {
    MinutesLabelForms(h, m);
    assert Decimal(h) == "1";
    assert Decimal(m) == "15" by {
      assert Decimal(m) == Decimal(1) + [DigitChar(5)];
    }
    assert "1" + ("h " + ("15" + "m")) == "1h 15m";
  }

  /** An hour exactly shows as "1h": the trailing space is trimmed. */
  lemma {:induction false} FormatTimeHourExample()
    ensures FormatTime(3600000) == "1h"
  {
    FormatTimeIsLabel(3600000, 1, 0);
    WholeHoursLabel(1);
    OneHourText(1);
  }

  /** An hour and a quarter shows as "1h 15m". */
  lemma {:induction false} FormatTimeQuarterExample()
    ensures FormatTime(4500000) == "1h 15m"
  {
    FormatTimeIsLabel(4500000, 1, 15);
    QuarterPastLabel(1, 15);
  }

  // ---- escapeHtml ----

  /** `s.replace(/c/g, rep)` for a one-character pattern. */
  function ReplaceAll(s: string, c: char, rep: string): (r: string) {
    if s == [] then [] else (if s[0] == c then rep else [s[0]]) + ReplaceAll(s[1..], c, rep)
  }

  lemma {:induction false} ReplaceAllConcat(a: string, b: string, c: char, rep: string)
    ensures ReplaceAll(a + b, c, rep) == ReplaceAll(a, c, rep) + ReplaceAll(b, c, rep)
  {
    if a == [] {
      assert a + b == b;
    } else {
      assert (a + b)[1..] == a[1..] + b;
      ReplaceAllConcat(a[1..], b, c, rep);
    }
  }

  lemma {:induction false} ReplaceAllAbsent(s: string, c: char, rep: string)
    requires forall k :: 0 <= k < |s| ==> s[k] != c
    ensures ReplaceAll(s, c, rep) == s
  {
    if s != [] {
      ReplaceAllAbsent(s[1..], c, rep);
    }
  }

  lemma {:induction false} ReplaceAllSingle(c: char, x: char, rep: string)
    ensures ReplaceAll([c], x, rep) == if c == x then rep else [c]
  {
    assert [c][1..] == [];
  }

  /** One `replace` step of the chain. */
  datatype Rule = Rule(find: char, replaceWith: string)

  /** The steps of `escapeHtml`, in their order: the ampersand first. */
  const EscapeRules: seq<Rule> := [
    Rule('&', "&amp;"), Rule('<', "&lt;"), Rule('>', "&gt;"), Rule('"', "&quot;"), Rule('\'', "&#039;")]

  /** Applies the steps one after the other, each to the whole text. */
  function ApplyRules(s: string, rules: seq<Rule>): string
    decreases |rules|
  {
    if rules == [] then s else ApplyRules(ReplaceAll(s, rules[0].find, rules[0].replaceWith), rules[1..])
  }

  function EscapeChain(s: string): string {
    ApplyRules(s, EscapeRules)
  }

  /** `escapeHtml(text)`: the empty string for a missing, null or empty
      text, the chained replacements otherwise. */
  function EscapeHtml(text: Prop<string>): string {
    if text.Has? && text.value != "" then EscapeChain(text.value) else ""
  }

  /** The entity each character becomes, in one pass. */
  function EscapeChar(c: char): string {
    if c == '&' then "&amp;"
    else if c == '<' then "&lt;"
    else if c == '>' then "&gt;"
    else if c == '"' then "&quot;"
    else if c == '\'' then "&#039;"
    else [c]
  }

  function EscapeEach(s: string): string {
    if s == [] then [] else EscapeChar(s[0]) + EscapeEach(s[1..])
  }

  lemma {:induction false} ApplyRulesConcat(a: string, b: string, rules: seq<Rule>)
    ensures ApplyRules(a + b, rules) == ApplyRules(a, rules) + ApplyRules(b, rules)
    decreases |rules|
  {
    if rules != [] {
      var r := rules[0];
      ReplaceAllConcat(a, b, r.find, r.replaceWith);
      ApplyRulesConcat(ReplaceAll(a, r.find, r.replaceWith), ReplaceAll(b, r.find, r.replaceWith), rules[1..]);
    }
  }

  /** A text containing none of the searched characters passes unchanged. */
  lemma {:induction false} ApplyRulesUntouched(s: string, rules: seq<Rule>)
    requires forall i, k :: 0 <= i < |rules| && 0 <= k < |s| ==> s[k] != rules[i].find
    ensures ApplyRules(s, rules) == s
  {
    if rules != [] {
      ReplaceAllAbsent(s, rules[0].find, rules[0].replaceWith);
      ApplyRulesUntouched(s, rules[1..]);
    }
  }

  /** No step writes a character that a later step searches for. */
  predicate LaterStepsSpare(rules: seq<Rule>) {
    forall i, j, k :: 0 <= i < j < |rules| && 0 <= k < |rules[i].replaceWith| ==>
      rules[i].replaceWith[k] != rules[j].find
  }

  /** The first step that searches for `c` decides what it becomes. */
  function FirstRuleFor(rules: seq<Rule>, c: char): string {
    if rules == [] then [c]
    else if rules[0].find == c then rules[0].replaceWith
    else FirstRuleFor(rules[1..], c)
  }

  lemma {:induction false} ApplyRulesChar(c: char, rules: seq<Rule>)
    requires LaterStepsSpare(rules)
    ensures ApplyRules([c], rules) == FirstRuleFor(rules, c)
  {
    if rules != [] {
      var r := rules[0];
      ReplaceAllSingle(c, r.find, r.replaceWith);
      assert LaterStepsSpare(rules[1..]) by {
        forall i, j, k | 0 <= i < j < |rules[1..]| && 0 <= k < |rules[1..][i].replaceWith|
          ensures rules[1..][i].replaceWith[k] != rules[1..][j].find
        {
          assert rules[1..][i] == rules[i + 1] && rules[1..][j] == rules[j + 1];
        }
      }
      if r.find == c {
        forall i, k | 0 <= i < |rules[1..]| && 0 <= k < |r.replaceWith|
          ensures r.replaceWith[k] != rules[1..][i].find
        {
          assert rules[1..][i] == rules[i + 1];
        }
        ApplyRulesUntouched(r.replaceWith, rules[1..]);
      } else {
        ApplyRulesChar(c, rules[1..]);
      }
    }
  }

  predicate IsMarkup(c: char) {
    c == '<' || c == '>' || c == '"' || c == '\''
  }

  lemma {:induction false} EntityHasNoMarkup(t: string)
    requires t == "&amp;" || t == "&lt;" || t == "&gt;" || t == "&quot;" || t == "&#039;"
    ensures forall k :: 0 <= k < |t| ==> !IsMarkup(t[k])
  {
  }

  lemma {:induction false} EscapeRulesSpare()
    ensures LaterStepsSpare(EscapeRules)
  {
    var rs := EscapeRules;
    forall i | 0 <= i < |rs| ensures forall k :: 0 <= k < |rs[i].replaceWith| ==> !IsMarkup(rs[i].replaceWith[k]) {
      EntityHasNoMarkup(rs[i].replaceWith);
    }
    assert forall j :: 1 <= j < |rs| ==> IsMarkup(rs[j].find);
  }

  lemma {:induction false} EscapeRulesPerChar(c: char)
    ensures FirstRuleFor(EscapeRules, c) == EscapeChar(c)
  {
    var rs := EscapeRules;
    var r1, r2, r3, r4 := rs[1..], rs[2..], rs[3..], rs[4..];
    assert r1 == rs[1..] && r1[1..] == r2 && r2[1..] == r3 && r3[1..] == r4 && r4[1..] == [];
    assert rs[0] == Rule('&', "&amp;") && r1[0] == Rule('<', "&lt;") && r2[0] == Rule('>', "&gt;");
    assert r3[0] == Rule('"', "&quot;") && r4[0] == Rule('\'', "&#039;");
    assert FirstRuleFor(r4, c) == if c == '\'' then "&#039;" else [c];
    assert FirstRuleFor(r3, c) == if c == '"' then "&quot;" else FirstRuleFor(r4, c);
    assert FirstRuleFor(r2, c) == if c == '>' then "&gt;" else FirstRuleFor(r3, c);
    assert FirstRuleFor(r1, c) == if c == '<' then "&lt;" else FirstRuleFor(r2, c);
  }

  /** Because the ampersand goes first, no entity written by one step is
      rewritten by a later one: the chain escapes each character on its
      own. */
  lemma {:induction false} EscapeChainIsPerChar(s: string)
    ensures EscapeChain(s) == EscapeEach(s)
  {
    if s != [] {
      EscapeChainIsPerChar(s[1..]);
      assert s == [s[0]] + s[1..];
      ApplyRulesConcat([s[0]], s[1..], EscapeRules);
      EscapeRulesSpare();
      ApplyRulesChar(s[0], EscapeRules);
      EscapeRulesPerChar(s[0]);
    }
  }

  /** The escaped text holds none of the four markup characters. */
  lemma {:induction false} EscapedHasNoMarkup(s: string)
    ensures forall k :: 0 <= k < |EscapeEach(s)| ==>
      EscapeEach(s)[k] !in {'<', '>', '"', '\''}
  {
    if s != [] {
      EscapedHasNoMarkup(s[1..]);
    }
  }

  /** Decodes the five entities `escapeHtml` writes. */
  function DecodeEntities(s: string): string {
    if s == [] then []
    else if s[0] != '&' then [s[0]] + DecodeEntities(s[1..])
    else if |s| >= 5 && s[1] == 'a' && s[2] == 'm' && s[3] == 'p' && s[4] == ';' then ['&'] + DecodeEntities(s[5..])
    else if |s| >= 4 && s[1] == 'l' && s[2] == 't' && s[3] == ';' then ['<'] + DecodeEntities(s[4..])
    else if |s| >= 4 && s[1] == 'g' && s[2] == 't' && s[3] == ';' then ['>'] + DecodeEntities(s[4..])
    else if |s| >= 6 && s[1] == 'q' && s[2] == 'u' && s[3] == 'o' && s[4] == 't' && s[5] == ';' then ['"'] + DecodeEntities(s[6..])
    else if |s| >= 6 && s[1] == '#' && s[2] == '0' && s[3] == '3' && s[4] == '9' && s[5] == ';' then ['\''] + DecodeEntities(s[6..])
    else [s[0]] + DecodeEntities(s[1..])
  }

  lemma {:induction false} DecodeEscapedChar(c: char, rest: string)
    ensures DecodeEntities(EscapeChar(c) + rest) == [c] + DecodeEntities(rest)
  {
    var e := EscapeChar(c);
    var s := e + rest;
    assert s[|e|..] == rest;
    assert forall k :: 0 <= k < |e| ==> s[k] == e[k];
  }

  lemma {:induction false} EscapeEachRoundTrip(s: string)
    ensures DecodeEntities(EscapeEach(s)) == s
  {
    if s != [] {
      EscapeEachRoundTrip(s[1..]);
      DecodeEscapedChar(s[0], EscapeEach(s[1..]));
      assert s == [s[0]] + s[1..];
    }
  }

  /** Decoding the escaped text gives back the original: escaping loses
      nothing. */
  lemma {:induction false} EscapeRoundTrip(s: string)
    ensures DecodeEntities(EscapeHtml(Has(s))) == s
  {
    EscapeChainIsPerChar(s);
    EscapeEachRoundTrip(s);
  }

  /** What `escapeHtml` writes holds none of the four markup characters. */
  lemma {:induction false} EscapeHtmlHasNoMarkup(text: Prop<string>)
    ensures forall k :: 0 <= k < |EscapeHtml(text)| ==>
      EscapeHtml(text)[k] !in {'<', '>', '"', '\''}
  {
    if text.Has? && text.value != "" {
      EscapeChainIsPerChar(text.value);
      EscapedHasNoMarkup(text.value);
    }
  }

  /** Missing, null and empty texts all escape to the empty string. */
  lemma {:induction false} EscapeFalsy()
    ensures EscapeHtml(Absent) == "" && EscapeHtml(Null) == "" && EscapeHtml(Has("")) == ""
  {
  }
}
