/**
 * Recognisers for the lines of a WhatsApp chat export (extern_libs/rust/src/lib.rs):
 * `LINE_PATTERN`, the cheap pre-filter in front of it, `SYSTEM_PATTERN`,
 * `YEAR_4_DIGITS` and the date-format choice of `parse_datetime`.
 *
 * The regular expressions are replaced by deterministic scanners. For
 * `LINE_PATTERN` every quantified digit run is followed by a literal that is
 * not a digit, `[^:]+` is followed by `:` and `.+` is greedy, so the leftmost
 * match has exactly one decomposition; the scanner takes maximal runs and the
 * lemmas below show that it accepts exactly the lines of that shape.
 */
module ChatLine {
  import opened Wrappers
  import opened Scanning

  /** Rust `&str`/`String`: a sequence of Unicode scalar values. */
  type String = seq<char>

  predicate IsDigit(c: char) { '0' <= c <= '9' }
  predicate NotColon(c: char) { c != ':' }
  predicate NotNewline(c: char) { c != '\n' }

  predicate AllDigits(s: String) { forall i :: 0 <= i < |s| ==> IsDigit(s[i]) }

  /** The five digit groups of capture 1, `\d{1,2}/\d{1,2}/\d{2,4}, \d{1,2}:\d{2}`. */
  datatype DateFields = DateFields(day: String, month: String, year: String, hour: String, minute: String)

  predicate WellFormedDate(f: DateFields) {
    && AllDigits(f.day) && 1 <= |f.day| <= 2
    && AllDigits(f.month) && 1 <= |f.month| <= 2
    && AllDigits(f.year) && 2 <= |f.year| <= 4
    && AllDigits(f.hour) && 1 <= |f.hour| <= 2
    && AllDigits(f.minute) && |f.minute| == 2
  }

  /** The text of capture 1 (`captures[1]`, the `datetime_str`). */
  function DateText(f: DateFields): String {
    DatePrefix(f, "")
  }

  /** The date/time text written out in front of `tail`. */
  function DatePrefix(f: DateFields, tail: String): String {
    f.day + ("/" + (f.month + ("/" + (f.year + (", " + (f.hour + (":" + (f.minute + tail))))))))
  }

  lemma DatePrefixIsConcat(f: DateFields, tail: String)
    ensures DateText(f) + tail == DatePrefix(f, tail)
  {
    assert f.minute + "" == f.minute;
  }

  /** The three captures of `LINE_PATTERN`: date/time, author, content. */
  datatype HeaderLine = HeaderLine(date: DateFields, author: String, text: String)

  predicate WellFormedHeader(h: HeaderLine) {
    WellFormedDate(h.date) && |h.author| > 0 && ':' !in h.author && |h.text| > 0 && '\n' !in h.text
  }

  /** The part of a line that `LINE_PATTERN` consumes. */
  function HeaderText(h: HeaderLine): String {
    HeaderPrefix(h, "")
  }

  /** The header written out in front of `tail`. */
  function HeaderPrefix(h: HeaderLine, tail: String): String {
    DatePrefix(h.date, " - " + (h.author + (": " + (h.text + tail))))
  }

  lemma HeaderPrefixIsConcat(h: HeaderLine, tail: String)
    ensures HeaderText(h) + tail == HeaderPrefix(h, tail)
  {
    var x := " - " + (h.author + (": " + h.text));
    assert h.text + "" == h.text;
    DatePrefixIsConcat(h.date, x);
    DatePrefixIsConcat(h.date, x + tail);
    DatePrefixIsConcat(h.date, "");
    assert x + tail == " - " + (h.author + (": " + (h.text + tail)));
  }

  /** `LINE_PATTERN` matches `line` with captures `h`: the header is a prefix of
      the line and `.+` stopped at the end of the line or at a line feed. */
  ghost predicate LinePatternMatches(line: String, h: HeaderLine) {
    WellFormedHeader(h) && exists tail :: line == HeaderText(h) + tail && (tail == [] || tail[0] == '\n')
  }

  /** `\d{lo,hi}` followed by the literal `lit` (which does not start with a
      digit) at the start of `s`: since the literal stops the digit run, the
      regex can only use the maximal run. Yields the digits and what follows. */
  function DigitsThen(s: String, lo: nat, hi: nat, lit: String): (r: Option<(String, String)>)
    ensures r.Some? ==> AllDigits(r.value.0) && lo <= |r.value.0| <= hi
    ensures r.Some? ==> s == r.value.0 + (lit + r.value.1)
  {
    var (ds, rest) := TakeWhile(s, IsDigit);
    if !(lo <= |ds| <= hi) then None else
    match StripPrefix(rest, lit)
    case None => None
    case Some(after) => Some((ds, after))
  }

  /** `\d{1,2}/\d{1,2}/\d{2,4}, \d{1,2}:\d{2}` anchored at the start of `s`;
      yields the digit groups and what follows them. */
  function MatchDate(s: String): (r: Option<(DateFields, String)>)
    ensures r.Some? ==> WellFormedDate(r.value.0)
    ensures r.Some? ==> s == DatePrefix(r.value.0, r.value.1)
  {
    var d := DigitsThen(s, 1, 2, "/");
    if d.None? then None else
    var m := DigitsThen(d.value.1, 1, 2, "/");
    if m.None? then None else
    var y := DigitsThen(m.value.1, 2, 4, ", ");
    if y.None? then None else
    var h := DigitsThen(y.value.1, 1, 2, ":");
    if h.None? then None else
    var mi := TwoDigits(h.value.1);
    if mi.None? then None else
    Some((DateFields(d.value.0, m.value.0, y.value.0, h.value.0, mi.value.0), mi.value.1))
  }

  /** `\d{2}`: exactly two digits, whatever follows them. */
  function TwoDigits(s: String): (r: Option<(String, String)>)
    ensures r.Some? ==> AllDigits(r.value.0) && |r.value.0| == 2 && s == r.value.0 + r.value.1
    ensures r.None? ==> !(2 <= |s| && IsDigit(s[0]) && IsDigit(s[1]))
  {
    if 2 <= |s| && IsDigit(s[0]) && IsDigit(s[1]) then
      var (ds, rest) := ([s[0], s[1]], s[2..]);
      assert s == ds + rest;
      Some((ds, rest))
    else
      None
  }

  /** `MatchDate` finds the digit groups of any well-formed date, whatever follows. */
  lemma MatchDateComplete(f: DateFields, tail: String)
    requires WellFormedDate(f)
    ensures MatchDate(DatePrefix(f, tail)) == Some((f, tail))
  {
    var s4 := f.minute + tail;
    var s3 := f.hour + (":" + s4);
    var s2 := f.year + (", " + s3);
    var s1 := f.month + ("/" + s2);
    var s := f.day + ("/" + s1);
    assert DatePrefix(f, tail) == s;
    DigitsThenComplete(f.day, "/", s1, 1, 2);
    DigitsThenComplete(f.month, "/", s2, 1, 2);
    DigitsThenComplete(f.year, ", ", s3, 2, 4);
    DigitsThenComplete(f.hour, ":", s4, 1, 2);
    TwoDigitsComplete(f.minute, tail);
  }

  lemma TwoDigitsComplete(ds: String, rest: String)
    requires AllDigits(ds) && |ds| == 2
    ensures TwoDigits(ds + rest) == Some((ds, rest))
  {
    assert ds == [ds[0], ds[1]];
    assert (ds + rest)[2..] == rest;
  }

  lemma DigitsThenComplete(ds: String, lit: String, rest: String, lo: nat, hi: nat)
    requires AllDigits(ds) && lo <= |ds| <= hi && |lit| > 0 && !IsDigit(lit[0])
    ensures DigitsThen(ds + (lit + rest), lo, hi, lit) == Some((ds, rest))
  {
    TakeWhileOfConcat(ds, lit + rest, IsDigit);
    StripPrefixOfConcat(lit, rest);
  }

  /** ` - ([^:]+): (.+)`, the part of `LINE_PATTERN` after the date, at the
      start of `s`; yields the author, the content and what follows them. */
  function MatchSender(s: String): (r: Option<(String, String, String)>)
    ensures r.Some? ==> |r.value.0| > 0 && ':' !in r.value.0
    ensures r.Some? ==> |r.value.1| > 0 && '\n' !in r.value.1
    ensures r.Some? ==> r.value.2 == [] || r.value.2[0] == '\n'
    ensures r.Some? ==> s == " - " + (r.value.0 + (": " + (r.value.1 + r.value.2)))
  {
    match StripPrefix(s, " - ")
    case None => None
    case Some(a) =>
      // `[^:]+` stops at the first colon, which must open ": "
      var (author, a2) := TakeWhile(a, NotColon);
      match StripPrefix(a2, ": ")
      case None => None
      case Some(c) =>
        // `.+` takes everything up to a line feed
        var (text, tail) := TakeWhile(c, NotNewline);
        if author == [] || text == [] then None else
        assert ':' !in author by {
          assert forall j :: 0 <= j < |author| ==> author[j] != ':';
        }
        assert '\n' !in text by {
          assert forall j :: 0 <= j < |text| ==> text[j] != '\n';
        }
        Some((author, text, tail))
  }

  lemma MatchSenderComplete(author: String, text: String, tail: String)
    requires |author| > 0 && ':' !in author && |text| > 0 && '\n' !in text
    requires tail == [] || tail[0] == '\n'
    ensures MatchSender(" - " + (author + (": " + (text + tail)))) == Some((author, text, tail))
  {
    var c := text + tail;
    var a2 := ": " + c;
    var a := author + a2;
    StripPrefixOfConcat(" - ", a);
    assert forall j :: 0 <= j < |author| ==> NotColon(author[j]);
    TakeWhileOfConcat(author, a2, NotColon);
    StripPrefixOfConcat(": ", c);
    assert forall j :: 0 <= j < |text| ==> NotNewline(text[j]);
    TakeWhileOfConcat(text, tail, NotNewline);
  }

  /** `LINE_PATTERN.captures(line)`:
      `^(\d{1,2}/\d{1,2}/\d{2,4}, \d{1,2}:\d{2}) - ([^:]+): (.+)`. */
  function MatchLine(line: String): (r: Option<HeaderLine>)
    ensures r.Some? ==> LinePatternMatches(line, r.value)
  {
    match MatchDate(line)
    case None => None
    case Some((date, rest)) =>
      match MatchSender(rest)
      case None => None
      case Some((author, text, tail)) =>
        var h := HeaderLine(date, author, text);
        HeaderPrefixIsConcat(h, tail);
        Some(h)
  }

  /** `MatchLine` returns exactly the captures of the one way `LINE_PATTERN`
      can match: it recognises every line of that shape, and nothing else. */
  lemma MatchLineExact(line: String, h: HeaderLine)
    ensures MatchLine(line) == Some(h) <==> LinePatternMatches(line, h)
  {
    if LinePatternMatches(line, h) {
      var tail :| line == HeaderText(h) + tail && (tail == [] || tail[0] == '\n');
      MatchLineComplete(h, tail);
    }
  }

  lemma MatchLineComplete(h: HeaderLine, tail: String)
    requires WellFormedHeader(h) && (tail == [] || tail[0] == '\n')
    ensures MatchLine(HeaderText(h) + tail) == Some(h)
  {
    var rest := " - " + (h.author + (": " + (h.text + tail)));
    HeaderPrefixIsConcat(h, tail);
    MatchDateComplete(h.date, rest);
    MatchSenderComplete(h.author, h.text, tail);
  }

  /** Every matching line is at least 19 characters long
      (`1/1/22, 1:00 - A: b`). */
  lemma MatchedLineLength(line: String)
    ensures MatchLine(line).Some? ==> |line| >= 19
  {
    if MatchLine(line).Some? {
      var h := MatchLine(line).value;
      HeaderPrefixIsConcat(h, "");
      DatePrefixIsConcat(h.date, " - " + (h.author + (": " + (h.text + ""))));
      assert |HeaderText(h)| >= 19;
    }
  }

  /** Number of UTF-8 bytes of a scalar value. */
  function Utf8Width(c: char): (n: nat)
    ensures 1 <= n <= 4
  {
    if c as int < 0x80 then 1 else if c as int < 0x800 then 2 else if c as int < 0x1_0000 then 3 else 4
  }

  /** `str::len`: the length in UTF-8 bytes, not in characters. */
  function Utf8Len(s: String): (n: nat)
    ensures |s| <= n <= 4 * |s|
    ensures (forall i :: 0 <= i < |s| ==> s[i] as int < 0x80) ==> n == |s|
  {
    if s == [] then 0 else Utf8Width(s[0]) + Utf8Len(s[1..])
  }

  /** The cheap test in front of the regex:
      `line.len() > 20 && line.contains(" - ") && line.contains(": ")`. */
  predicate PassesPrefilter(line: String) {
    Utf8Len(line) > 20 && Contains(line, " - ") && Contains(line, ": ")
  }

  /** The header recognised by `parse_whatsapp_chat`: the pre-filter, then `LINE_PATTERN`. */
  function HeaderOf(line: String): Option<HeaderLine> {
    if PassesPrefilter(line) then MatchLine(line) else None
  }

  /** The two substring tests of the pre-filter are implied by a match; only
      the byte-length test can turn a matching line away. */
  lemma HeaderOfExact(line: String, h: HeaderLine)
    ensures HeaderOf(line) == Some(h) <==> Utf8Len(line) > 20 && LinePatternMatches(line, h)
  {
    MatchLineExact(line, h);
    if LinePatternMatches(line, h) {
      var tail :| line == HeaderText(h) + tail && (tail == [] || tail[0] == '\n');
      HeaderContainsDash(h, tail);
      HeaderContainsColon(h, tail);
    }
  }

  lemma HeaderContainsDash(h: HeaderLine, tail: String)
    ensures Contains(HeaderText(h) + tail, " - ")
  {
    var y := h.author + (": " + (h.text + tail));
    HeaderPrefixIsConcat(h, tail);
    DatePrefixIsConcat(h.date, " - " + y);
    assert HeaderText(h) + tail == DateText(h.date) + " - " + y;
    ContainsInfix(DateText(h.date), " - ", y);
  }

  lemma HeaderContainsColon(h: HeaderLine, tail: String)
    ensures Contains(HeaderText(h) + tail, ": ")
  {
    var z := h.text + tail;
    var y := h.author + (": " + z);
    HeaderPrefixIsConcat(h, tail);
    DatePrefixIsConcat(h.date, " - " + y);
    var x := DateText(h.date) + " - " + h.author;
    assert HeaderText(h) + tail == x + ": " + z;
    ContainsInfix(x, ": ", z);
  }

  /** The alternatives of `SYSTEM_PATTERN` as the raw string literal spells
      them: a backslash before a line break is an escaped line feed, so every
      alternative after the first begins with a line feed and ten spaces. */
  const Continued: String := "\n          "

  const SystemAlternatives: seq<String> := [
    "los mensajes y llamadas están cifrados",
    Continued + "<Multimedia omitido>",
    Continued + "cambió su número de teléfono",
    Continued + "creó el grupo",
    Continued + "Messages and calls are end-to-end encrypted",
    Continued + "<Media omitted>",
    Continued + "changed their phone number",
    Continued + "created group"
  ]

  /** `SYSTEM_PATTERN.is_match(line)`: some alternative occurs in the line. */
  predicate IsSystemLine(line: String) {
    ContainsAny(line, SystemAlternatives)
  }

  /** The alternation `alts[0]|alts[1]|...` found somewhere in `line`. */
  predicate ContainsAny(line: String, alts: seq<String>)
    decreases |alts|
  {
    alts != [] && (Contains(line, alts[0]) || ContainsAny(line, alts[1..]))
  }

  lemma {:induction false} ContainsAnyIff(line: String, alts: seq<String>)
    ensures ContainsAny(line, alts) <==> exists k :: 0 <= k < |alts| && Contains(line, alts[k])
    decreases |alts|
  {
    if alts != [] {
      ContainsAnyIff(line, alts[1..]);
      if ContainsAny(line, alts[1..]) {
        var k :| 0 <= k < |alts[1..]| && Contains(line, alts[1..][k]);
        assert Contains(line, alts[k + 1]);
      }
      forall k | 1 <= k < |alts| && Contains(line, alts[k])
        ensures ContainsAny(line, alts[1..])
      {
        assert alts[1..][k - 1] == alts[k];
      }
    }
  }

  /** A line without a line feed contains none of the alternatives that
      begin with the escaped line break. */
  lemma {:induction false} NoneContinued(line: String, alts: seq<String>)
    requires '\n' !in line
    requires forall k :: 0 <= k < |alts| ==> |Continued| <= |alts[k]| && alts[k][..|Continued|] == Continued
    ensures !ContainsAny(line, alts)
    decreases |alts|
  {
    if alts != [] {
      ContainsHead(line, alts[0]);
      assert alts[0][0] == Continued[0];
      NoneContinued(line, alts[1..]);
    }
  }

  /** On a single line (no line feed) only the first phrase can match. */
  lemma SystemLineOnSingleLine(line: String)
    requires '\n' !in line
    ensures IsSystemLine(line) <==> Contains(line, SystemAlternatives[0])
  {
    var alts := SystemAlternatives[1..];
    forall k | 0 <= k < |alts|
      ensures |Continued| <= |alts[k]| && alts[k][..|Continued|] == Continued
    {
      assert alts[k] == SystemAlternatives[k + 1];
    }
    NoneContinued(line, alts);
  }

  /** `/\d{4},` at position `i`. */
  predicate Year4At(s: String, i: nat)
    requires i + 6 <= |s|
  {
    s[i] == '/' && IsDigit(s[i + 1]) && IsDigit(s[i + 2]) && IsDigit(s[i + 3]) && IsDigit(s[i + 4]) && s[i + 5] == ','
  }

  /** `YEAR_4_DIGITS.is_match(s)`. */
  predicate HasYear4(s: String) {
    exists i: nat :: i + 6 <= |s| && Year4At(s, i)
  }

  /** The two `chrono` formats: `%d/%m/%Y, %H:%M` and `%d/%m/%y, %H:%M`. */
  datatype DateFormat = FourDigitYear | TwoDigitYear

  /** Rust `i64`, the type of `timestamp_millis()`. */
  newtype i64 = x: int | -0x8000_0000_0000_0000 <= x < 0x8000_0000_0000_0000

  /** `NaiveDateTime::parse_from_str(s, format)` followed by
      `timestamp_millis()`: library code, so a parameter of the model. */
  type DateParser = (String, DateFormat) -> Option<i64>

  /** `parse_datetime`: pick the format by `YEAR_4_DIGITS`, then parse. */
  function ParseDatetime(s: String, chrono: DateParser): Option<i64> {
    var format := if HasYear4(s) then FourDigitYear else TwoDigitYear;
    chrono(s, format)
  }

  /** On a captured date the format test looks at the year alone: the
      four-digit format is chosen exactly when the year has four digits, and
      the result is `None` exactly when that chosen parse fails. */
  lemma ParseDatetimeOfCapture(f: DateFields, chrono: DateParser)
    requires WellFormedDate(f)
    ensures HasYear4(DateText(f)) <==> |f.year| == 4
    ensures ParseDatetime(DateText(f), chrono) == chrono(DateText(f), if |f.year| == 4 then FourDigitYear else TwoDigitYear)
  {
    var s := DateText(f);
    var p1 := |f.day|;
    var p2 := p1 + 1 + |f.month|;
    var tail := f.hour + (":" + (f.minute + ""));
    var y := f.year + (", " + tail);
    assert s == f.day + ("/" + (f.month + ("/" + y)));
    assert s[p1] == '/' && s[p2] == '/';
    assert s[p1 + 1 + |f.month|] == '/';
    assert forall j :: 0 <= j < |f.month| ==> s[p1 + 1 + j] == f.month[j];
    assert forall j :: 0 <= j < |f.year| ==> s[p2 + 1 + j] == f.year[j];
    assert s[p2 + 1 + |f.year|] == ',';
    assert forall i :: 0 <= i < |s| && s[i] == '/' ==> i == p1 || i == p2 by {
      assert forall j :: 0 <= j < p1 ==> s[j] == f.day[j];
      assert forall j :: p2 + 1 <= j < |s| ==> s[j] == y[j - p2 - 1];
      assert forall j :: 0 <= j < |y| ==> y[j] != '/';
    }
    if |f.year| == 4 {
      assert Year4At(s, p2);
    }
  }
}
