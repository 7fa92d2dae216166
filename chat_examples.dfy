/**
 * The two chats of the parser's unit tests (extern_libs/rust/src/lib.rs),
 * worked through the model. The unit tests of lib.rs use the real
 * `chrono`, which parses each of their dates; here that is a precondition
 * on the parser parameter.
 */
module ChatExamples {
  import opened Wrappers
  import opened Scanning
  import opened ChatLine
  import opened ChatParser

  /** A header as the chat export writes it, on a line of its own, is
      recognised as itself when it is longer than 20 bytes. */
  lemma HeaderRecognised(h: HeaderLine)
    requires WellFormedHeader(h) && Utf8Len(HeaderText(h)) > 20
    ensures HeaderOf(HeaderText(h)) == Some(h)
  {
    assert HeaderText(h) == HeaderText(h) + [];
    HeaderOfExact(HeaderText(h), h);
  }

  /** Such a header opens a message when its (two-digit-year) date parses. */
  lemma HeaderAccepted(h: HeaderLine, chrono: DateParser)
    requires WellFormedHeader(h) && Utf8Len(HeaderText(h)) > 20 && |h.date.year| == 2
    requires chrono(DateText(h.date), TwoDigitYear).Some?
    ensures ClassifierOf(chrono)(HeaderText(h)) == Accepted(h.author, chrono(DateText(h.date), TwoDigitYear).value, h.text)
  {
    HeaderRecognised(h);
    ParseDatetimeOfCapture(h.date, chrono);
  }

  /** A non-empty line with no line feed, no dash and no "j", not ending in
      a carriage return. */
  predicate PlainText(s: String) {
    s != [] && s[|s| - 1] != '\r' && '\n' !in s && '-' !in s && 'j' !in s
  }

  lemma PlainTextConcat(a: String, b: String)
    requires PlainText(a) && PlainText(b)
    ensures PlainText(a + b)
  {
    assert (a + b)[|a + b| - 1] == b[|b| - 1];
  }

  /** Such a line is neither a header nor a system line. */
  lemma PlainLine(line: String, chrono: DateParser)
    requires PlainText(line)
    ensures ClassifierOf(chrono)(line) == Plain
  {
    ContainsMember(line, " - ", 1);
    SystemLineOnSingleLine(line);
    ContainsMember(line, SystemAlternatives[0], 9);
  }

  lemma {:induction false} ContainsMember(s: String, t: String, k: nat)
    requires k < |t|
    ensures Contains(s, t) ==> t[k] in s
    decreases |s|
  {
    if |t| <= |s| && s[..|t|] == t {
      assert s[k] == t[k];
    } else if s != [] {
      ContainsMember(s[1..], t, k);
      assert forall x :: x in s[1..] ==> x in s;
    }
  }

  /** A header written on a line of its own: no line feed in it, and it
      ends where its text ends. */
  lemma HeaderOnItsLine(h: HeaderLine)
    requires WellFormedHeader(h) && '\n' !in h.author
    ensures '\n' !in HeaderText(h)
    ensures HeaderText(h) != [] && HeaderText(h)[|HeaderText(h)| - 1] == h.text[|h.text| - 1]
  {
    var d := h.date;
    HeaderPrefixIsConcat(h, "");
    var tail := " - " + (h.author + ": ");
    var prefix := d.day + ("/" + (d.month + ("/" + (d.year + (", " + (d.hour + (":" + (d.minute + tail))))))));
    assert HeaderText(h) == prefix + h.text;
    assert '\n' !in tail;
    assert '\n' !in prefix by {
      assert '\n' !in d.day && '\n' !in d.month && '\n' !in d.year && '\n' !in d.hour && '\n' !in d.minute;
    }
  }

  /** The message of an accepted header with no continuation. */
  function MessageOf(k: LineKind, score: Scorer): ParsedMessage
    requires k.Accepted?
  {
    ParsedMessage(k.author, k.text, k.timestamp, score(k.text))
  }

  /** A chat made only of accepted headers has one message per line, each
      holding just its header's text. */
  lemma {:induction false} OnlyHeaders(ls: seq<String>, c: Classifier, score: Scorer)
    requires forall i :: 0 <= i < |ls| ==> c(ls[i]).Accepted?
    ensures |Messages(ls, c, score)| == |ls|
    ensures forall i :: 0 <= i < |ls| ==> Messages(ls, c, score)[i] == MessageOf(c(ls[i]), score)
    decreases |ls|
  {
    if ls != [] {
      assert forall i :: 0 <= i < |ls[1..]| ==> ls[1..][i] == ls[i + 1];
      OnlyHeaders(ls[1..], c, score);
      assert Continuation(ls[1..], c) == "" by {
        if |ls| > 1 { assert c(ls[1..][0]).Accepted?; }
      }
      assert c(ls[0]).text + "" == c(ls[0]).text;
    }
  }

  const Date1 := DateFields("1", "1", "22", "10", "30")
  const Date2 := DateFields("1", "1", "22", "10", "31")
  const Date3 := DateFields("1", "1", "22", "10", "32")

  // ---------------------------------------------------------------------------
  // test_parse_simple_chat

  const Simple1 := HeaderLine(Date1, "Alice", "Hola")
  const Simple2 := HeaderLine(Date2, "Bob", "Hola Alice")
  const Simple3 := HeaderLine(Date3, "Alice", "¿Cómo estás?")

  /** The test's chat: "1/1/22, 10:30 - Alice: Hola", "1/1/22, 10:31 - Bob:
      Hola Alice" and "1/1/22, 10:32 - Alice: ¿Cómo estás?" on three lines. */
  const SimpleChat: String := JoinLines([HeaderText(Simple1), HeaderText(Simple2), HeaderText(Simple3)])

  /** A header of the tests: well formed, on its own line, longer than 20
      bytes, with a two-digit year. */
  predicate TestHeader(h: HeaderLine) {
    WellFormedHeader(h) && '\n' !in h.author && h.text[|h.text| - 1] != '\r' &&
    |h.date.year| == 2 && |h.author| + |h.text| >= 6
  }

  /** Such a header is recognised and, when its date parses, accepted. */
  lemma TestHeaderAccepted(h: HeaderLine, chrono: DateParser)
    requires TestHeader(h) && chrono(DateText(h.date), TwoDigitYear).Some?
    ensures ClassifierOf(chrono)(HeaderText(h)) == Accepted(h.author, chrono(DateText(h.date), TwoDigitYear).value, h.text)
  {
    HeaderPrefixIsConcat(h, "");
    DatePrefixIsConcat(h.date, " - " + (h.author + (": " + h.text)));
    assert |HeaderText(h)| > 20;
    HeaderAccepted(h, chrono);
  }

  lemma SimpleHeaders()
    ensures TestHeader(Simple1) && TestHeader(Simple2) && TestHeader(Simple3)
  {
    assert TestHeader(Simple1);
    assert TestHeader(Simple2);
    assert TestHeader(Simple3);
  }

  /** Filing three messages by two authors, the first and the last by the
      same one. */
  lemma SaveThree(m1: ParsedMessage, m2: ParsedMessage, m3: ParsedMessage)
    requires m1.author == m3.author != m2.author
    ensures SaveAll(map[], [m1, m2, m3]) == map[m1.author := [m1, m3], m2.author := [m2]]
  {
    var p0: Participants := map[];
    var p1 := p0[m1.author := Lookup(p0, m1.author) + [m1]];
    var p2 := p1[m2.author := Lookup(p1, m2.author) + [m2]];
    var p3 := p2[m3.author := Lookup(p2, m3.author) + [m3]];
    assert [m1, m2, m3][1..] == [m2, m3] && [m2, m3][1..] == [m3] && [m3][1..] == [];
    assert SaveAll(p0, [m1, m2, m3]) == SaveAll(p1, [m2, m3]);
    assert SaveAll(p1, [m2, m3]) == SaveAll(p2, [m3]);
    assert SaveAll(p2, [m3]) == p3;
    assert Lookup(p0, m1.author) + [m1] == [m1];
    assert Lookup(p1, m2.author) + [m2] == [m2];
    assert Lookup(p2, m3.author) + [m3] == [m1, m3];
    assert p3 == map[m1.author := [m1, m3], m2.author := [m2]];
  }

  /** Three headers by two authors, the first and the last by the same
      one, file two messages under the first author and one under the
      other. */
  lemma TwoAuthorsThreeHeaders(ls: seq<String>, c: Classifier, score: Scorer)
    requires |ls| == 3 && c(ls[0]).Accepted? && c(ls[1]).Accepted? && c(ls[2]).Accepted?
    requires c(ls[0]).author == c(ls[2]).author != c(ls[1]).author
    ensures SaveAll(map[], Messages(ls, c, score)) ==
      map[c(ls[0]).author := [MessageOf(c(ls[0]), score), MessageOf(c(ls[2]), score)],
          c(ls[1]).author := [MessageOf(c(ls[1]), score)]]
  {
    assert forall i :: 0 <= i < |ls| ==> c(ls[i]).Accepted? by {
      forall i | 0 <= i < |ls| ensures c(ls[i]).Accepted? {
        assert i == 0 || i == 1 || i == 2;
      }
    }
    OnlyHeaders(ls, c, score);
    var ms := Messages(ls, c, score);
    assert ms == [MessageOf(c(ls[0]), score), MessageOf(c(ls[1]), score), MessageOf(c(ls[2]), score)];
    SaveThree(ms[0], ms[1], ms[2]);
  }

  /** The message a test header files when its date parses. */
  function HeaderMessage(h: HeaderLine, chrono: DateParser, score: Scorer): ParsedMessage
    requires chrono(DateText(h.date), TwoDigitYear).Some?
  {
    ParsedMessage(h.author, h.text, chrono(DateText(h.date), TwoDigitYear).value, score(h.text))
  }

  /** Three test headers joined into a chat come back as its three lines. */
  lemma ThreeHeaderLines(h1: HeaderLine, h2: HeaderLine, h3: HeaderLine)
    requires TestHeader(h1) && TestHeader(h2) && TestHeader(h3)
    ensures Lines(JoinLines([HeaderText(h1), HeaderText(h2), HeaderText(h3)])) ==
      [HeaderText(h1), HeaderText(h2), HeaderText(h3)]
  {
    HeaderOnItsLine(h1);
    HeaderOnItsLine(h2);
    HeaderOnItsLine(h3);
    LinesOfJoin([HeaderText(h1), HeaderText(h2), HeaderText(h3)]);
  }

  /** A chat of three test headers by two authors, the first and the last by
      the same one, files two messages under the first author and one under
      the other, each holding its header's text. */
  lemma ThreeHeaderChat(h1: HeaderLine, h2: HeaderLine, h3: HeaderLine, chrono: DateParser, score: Scorer)
    requires TestHeader(h1) && TestHeader(h2) && TestHeader(h3)
    requires chrono(DateText(h1.date), TwoDigitYear).Some?
    requires chrono(DateText(h2.date), TwoDigitYear).Some?
    requires chrono(DateText(h3.date), TwoDigitYear).Some?
    requires h1.author == h3.author != h2.author
    ensures SaveAll(map[], Messages(Lines(JoinLines([HeaderText(h1), HeaderText(h2), HeaderText(h3)])), ClassifierOf(chrono), score)) ==
      map[h1.author := [HeaderMessage(h1, chrono, score), HeaderMessage(h3, chrono, score)],
          h2.author := [HeaderMessage(h2, chrono, score)]]
  {
    var c := ClassifierOf(chrono);
    var ls := [HeaderText(h1), HeaderText(h2), HeaderText(h3)];
    ThreeHeaderLines(h1, h2, h3);
    TestHeaderAccepted(h1, chrono);
    TestHeaderAccepted(h2, chrono);
    TestHeaderAccepted(h3, chrono);
    assert c(ls[0]) == c(HeaderText(h1));
    assert c(ls[1]) == c(HeaderText(h2));
    assert c(ls[2]) == c(HeaderText(h3));
    TwoAuthorsThreeHeaders(ls, c, score);
    assert MessageOf(c(ls[0]), score) == HeaderMessage(h1, chrono, score);
    assert MessageOf(c(ls[1]), score) == HeaderMessage(h2, chrono, score);
    assert MessageOf(c(ls[2]), score) == HeaderMessage(h3, chrono, score);
  }

  /** The three-line chat files two messages under "Alice" and one under
      "Bob", and nothing else. */
  lemma SimpleChatParticipants(chrono: DateParser, score: Scorer)
    requires chrono(DateText(Date1), TwoDigitYear).Some?
    requires chrono(DateText(Date2), TwoDigitYear).Some?
    requires chrono(DateText(Date3), TwoDigitYear).Some?
    ensures var p := SaveAll(map[], Messages(Lines(SimpleChat), ClassifierOf(chrono), score));
      p.Keys == {"Alice", "Bob"} &&
      |p["Alice"]| == 2 && p["Alice"][0].content == "Hola" && p["Alice"][1].content == "¿Cómo estás?" &&
      |p["Bob"]| == 1 && p["Bob"][0].content == "Hola Alice"
  {
    SimpleHeaders();
    ThreeHeaderChat(Simple1, Simple2, Simple3, chrono, score);
  }

  /** `test_parse_simple_chat`: the parser returns exactly two participants. */
  method ParseSimpleChat(chrono: DateParser, score: Scorer) returns (chat: ParsedChat)
    requires chrono(DateText(Date1), TwoDigitYear).Some?
    requires chrono(DateText(Date2), TwoDigitYear).Some?
    requires chrono(DateText(Date3), TwoDigitYear).Some?
    ensures |chat.participants| == 2
  {
    chat := ParseWhatsappChat(SimpleChat, chrono, score);
    SimpleChatParticipants(chrono, score);
    ParticipantCount(chat.participants, SaveAll(map[], Messages(Lines(SimpleChat), ClassifierOf(chrono), score)));
  }

  // ---------------------------------------------------------------------------
  // test_multiline_message

  /** A header, two lines that continue it, and a header by another
      author: the first message holds its header's text and the two lines,
      each after a line feed. */
  lemma HeaderTwoLinesHeader(ls: seq<String>, c: Classifier, score: Scorer)
    requires |ls| == 4 && c(ls[0]).Accepted? && c(ls[1]) == Plain && c(ls[2]) == Plain && c(ls[3]).Accepted?
    requires c(ls[0]).author != c(ls[3]).author
    ensures var k := c(ls[0]); var content := k.text + "\n" + ls[1] + "\n" + ls[2];
      SaveAll(map[], Messages(ls, c, score)) ==
      map[k.author := [ParsedMessage(k.author, content, k.timestamp, score(content))],
          c(ls[3]).author := [MessageOf(c(ls[3]), score)]]
  {
    var k := c(ls[0]);
    var content := k.text + "\n" + ls[1] + "\n" + ls[2];
    assert ls[1..][1..] == ls[2..] && ls[2..][1..] == ls[3..] && ls[3..][1..] == [];
    assert Continuation(ls[3..], c) == "" by {
      assert ls[3..][0] == ls[3];
    }
    assert Continuation(ls[2..], c) == "\n" + ls[2] + "" by {
      assert ls[2..][0] == ls[2];
    }
    assert Continuation(ls[1..], c) == "\n" + ls[1] + ("\n" + ls[2] + "") by {
      assert ls[1..][0] == ls[1];
    }
    assert k.text + Continuation(ls[1..], c) == content;
    var m1 := ParsedMessage(k.author, content, k.timestamp, score(content));
    var m4 := MessageOf(c(ls[3]), score);
    assert Messages(ls[3..], c, score) == [m4] by {
      assert c(ls[3]).text + "" == c(ls[3]).text;
    }
    assert Messages(ls[2..], c, score) == [m4] by {
      assert ls[2..][0] == ls[2];
    }
    assert Messages(ls[1..], c, score) == [m4] by {
      assert ls[1..][0] == ls[1];
    }
    assert Messages(ls, c, score) == [m1] + [m4];
    assert [m1, m4][1..] == [m4] && [m4][1..] == [];
    ghost var p1: Participants := map[k.author := [m1]];
    assert SaveAll(map[], [m1, m4]) == SaveAll(p1, [m4]) by {
      assert Lookup(map[], k.author) + [m1] == [m1];
    }
    assert SaveAll(p1, [m4]) == p1[c(ls[3]).author := [m4]] by {
      assert Lookup(p1, c(ls[3]).author) + [m4] == [m4];
    }
  }

  /** The same for test headers and plain lines joined into a chat. */
  lemma HeaderWithTwoLines(h1: HeaderLine, l2: String, l3: String, h4: HeaderLine, chrono: DateParser, score: Scorer)
    requires TestHeader(h1) && TestHeader(h4) && h1.author != h4.author
    requires chrono(DateText(h1.date), TwoDigitYear).Some?
    requires chrono(DateText(h4.date), TwoDigitYear).Some?
    requires PlainText(l2) && PlainText(l3)
    ensures var content := h1.text + "\n" + l2 + "\n" + l3;
      SaveAll(map[], Messages(Lines(JoinLines([HeaderText(h1), l2, l3, HeaderText(h4)])), ClassifierOf(chrono), score)) ==
      map[h1.author := [ParsedMessage(h1.author, content, chrono(DateText(h1.date), TwoDigitYear).value, score(content))],
          h4.author := [HeaderMessage(h4, chrono, score)]]
  {
    var c := ClassifierOf(chrono);
    var ls := [HeaderText(h1), l2, l3, HeaderText(h4)];
    HeaderOnItsLine(h1);
    HeaderOnItsLine(h4);
    assert '\n' !in l2 && '\n' !in l3;
    LinesOfJoin(ls);
    TestHeaderAccepted(h1, chrono);
    TestHeaderAccepted(h4, chrono);
    PlainLine(l2, chrono);
    PlainLine(l3, chrono);
    assert c(ls[0]) == c(HeaderText(h1)) && c(ls[1]) == c(l2) && c(ls[2]) == c(l3) && c(ls[3]) == c(HeaderText(h4));
    HeaderTwoLinesHeader(ls, c, score);
  }

  const Multi1 := HeaderLine(Date1, "Alice", "Este es un mensaje")
  const Multi2 := HeaderLine(Date2, "Bob", "Respuesta")
  const Continua: String := "continúa"
  const Continued: String := "que " + Continua + " en la siguiente línea"
  const Again: String := "y otra más"

  /** The test's chat: Alice's header "1/1/22, 10:30 - Alice: Este es un
      mensaje", the lines "que continúa en la siguiente línea" and "y otra
      más", then "1/1/22, 10:31 - Bob: Respuesta". */
  const MultilineChat: String := JoinLines([HeaderText(Multi1), Continued, Again, HeaderText(Multi2)])

  lemma Multi1Text()
    ensures '\n' !in Multi1.text && Multi1.text[|Multi1.text| - 1] != '\r'
  {
  }

  lemma Multi1Header()
    ensures TestHeader(Multi1)
  {
    Multi1Text();
    assert WellFormedDate(Multi1.date);
  }

  lemma Multi2Header()
    ensures TestHeader(Multi2)
  {
  }

  lemma ContinuedPlain()
    ensures PlainText(Continued)
  {
    assert PlainText("que ");
    assert PlainText(Continua);
    assert PlainText(" en la siguiente línea");
    PlainTextConcat("que ", Continua);
    PlainTextConcat("que " + Continua, " en la siguiente línea");
  }

  lemma AgainPlain()
    ensures PlainText(Again)
  {
  }

  /** Alice's one message spans the three lines; its text contains
      "continúa". */
  lemma MultilineParticipants(chrono: DateParser, score: Scorer)
    requires chrono(DateText(Date1), TwoDigitYear).Some?
    requires chrono(DateText(Date2), TwoDigitYear).Some?
    ensures var p := SaveAll(map[], Messages(Lines(MultilineChat), ClassifierOf(chrono), score));
      p.Keys == {"Alice", "Bob"} && |p["Alice"]| == 1 &&
      p["Alice"][0].content == Multi1.text + "\n" + Continued + "\n" + Again &&
      Contains(p["Alice"][0].content, Continua)
  {
    Multi1Header();
    Multi2Header();
    ContinuedPlain();
    AgainPlain();
    HeaderWithTwoLines(Multi1, Continued, Again, Multi2, chrono, score);
    Regroup(Multi1.text, "\n", "que ", Continua, " en la siguiente línea", Again);
    ContainsInfix(Multi1.text + "\n" + "que ", Continua, " en la siguiente línea" + "\n" + Again);
  }

  lemma Regroup<T>(t: seq<T>, nl: seq<T>, q: seq<T>, x: seq<T>, e: seq<T>, a: seq<T>)
    ensures t + nl + (q + x + e) + nl + a == (t + nl + q) + x + (e + nl + a)
  {
  }

  /** `test_multiline_message`: the participant named "Alice" has a first
      message whose text contains "continúa". */
  method ParseMultilineChat(chrono: DateParser, score: Scorer) returns (chat: ParsedChat)
    requires chrono(DateText(Date1), TwoDigitYear).Some?
    requires chrono(DateText(Date2), TwoDigitYear).Some?
    ensures exists i :: 0 <= i < |chat.participants| && chat.participants[i].name == "Alice" &&
                        chat.participants[i].messages != [] &&
                        Contains(chat.participants[i].messages[0].content, Continua)
  {
    chat := ParseWhatsappChat(MultilineChat, chrono, score);
    MultilineParticipants(chrono, score);
    ghost var p := SaveAll(map[], Messages(Lines(MultilineChat), ClassifierOf(chrono), score));
    assert "Alice" in p;
    var i :| 0 <= i < |chat.participants| && chat.participants[i].name == "Alice";
  }
}
