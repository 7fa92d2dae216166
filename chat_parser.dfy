/**
 * `parse_whatsapp_chat` (extern_libs/rust/src/lib.rs): a single pass over the
 * lines of an exported chat that opens a message at every accepted header
 * line, appends continuation lines to it, skips system lines, and files every
 * finished message under its author.
 *
 * The loop body first decides what kind of line it is looking at
 * (`Classify`) and then updates its four local variables accordingly
 * (`Apply`); `Run` folds that over the lines. The method `ParseWhatsappChat`
 * runs the same loop imperatively and is proved equal to the fold.
 * Independently, `Messages` says which messages a chat contains (one per
 * accepted header, with the lines that follow it), and `RunFinish` proves
 * that the fold files exactly those messages, in order. The fold and the
 * reference are stated for any classification of lines, so that their proofs
 * do not depend on how lines are recognised.
 */
module ChatParser {
  import opened Wrappers
  import opened Scanning
  import opened ChatLine

  /** `sentiment::get_sentiment_score`: not part of this model, so a parameter. */
  type Scorer = String -> real


  datatype ParsedMessage = ParsedMessage(author: String, content: String, timestamp: i64, sentimentScore: real)

  datatype ParsedParticipant = ParsedParticipant(name: String, messages: seq<ParsedMessage>)

  datatype ParsedChat = ParsedChat(participants: seq<ParsedParticipant>)

  /** The `HashMap<String, Vec<ParsedMessage>>` the messages are filed in. */
  type Participants = map<String, seq<ParsedMessage>>

  // ---------------------------------------------------------------------------
  // Splitting into lines

  /** A line read up to (not including) a line feed loses one trailing
      carriage return. */
  function StripCr(l: String): (r: String)
    ensures r == l || (l == r + "\r")
    ensures '\n' !in l ==> '\n' !in r
  {
    if |l| > 0 && l[|l| - 1] == '\r' then
      assert l == l[..|l| - 1] + "\r";
      l[..|l| - 1]
    else
      l
  }

  /** `str::lines`: split at line feeds, drop a carriage return in front of
      a line feed, and produce no empty line after a final line feed. */
  function Lines(s: String): (ls: seq<String>)
    ensures forall i :: 0 <= i < |ls| ==> '\n' !in ls[i]
    decreases |s|
  {
    if s == [] then []
    else
      var n := Span(s, NotNewline);
      assert '\n' !in s[..n] by {
        assert forall j :: 0 <= j < n ==> s[..n][j] != '\n';
      }
      if n == |s| then [s]
      else [StripCr(s[..n])] + Lines(s[n + 1..])
  }

  /** The lines joined with line feeds between them. */
  function JoinLines(ls: seq<String>): String {
    if |ls| == 0 then ""
    else if |ls| == 1 then ls[0]
    else ls[0] + "\n" + JoinLines(ls[1..])
  }

  /** A text without carriage returns and without a final line feed is the
      join of its lines. */
  lemma {:induction false} JoinOfLines(s: String)
    requires '\r' !in s
    requires s == [] || s[|s| - 1] != '\n'
    ensures JoinLines(Lines(s)) == s
    decreases |s|
  {
    if s != [] {
      var n := Span(s, NotNewline);
      if n < |s| {
        var rest := s[n + 1..];
        assert s == s[..n] + "\n" + rest;
        assert '\r' !in s[..n] && '\r' !in rest by {
          assert forall c :: c in s[..n] || c in rest ==> c in s;
        }
        assert rest != [] && rest[|rest| - 1] == s[|s| - 1];
        JoinOfLines(rest);
        assert Lines(rest) != [];
        assert Lines(s) == [s[..n]] + Lines(rest);
      }
    }
  }

  /** A line without line feeds that does not end in a carriage return,
      followed by a line feed, is the first line. */
  lemma LinesCons(a: String, rest: String)
    requires '\n' !in a && (a == [] || a[|a| - 1] != '\r')
    ensures Lines(a + ("\n" + rest)) == [a] + Lines(rest)
  {
    var s := a + ("\n" + rest);
    FirstLineSpan(a, rest);
    LinesStep(s, |a|);
    assert s[..|a|] == a;
    assert s[|a| + 1..] == rest;
    assert StripCr(a) == a;
  }

  /** The first line of `a + "\n" + rest` is `a` when `a` has no line feed. */
  lemma FirstLineSpan(a: String, rest: String)
    requires '\n' !in a
    ensures Span(a + ("\n" + rest), NotNewline) == |a|
  {
    assert forall j :: 0 <= j < |a| ==> NotNewline(a[j]);
    SpanOfConcat(a, "\n" + rest, NotNewline);
  }

  /** One line split off: the text up to the first line feed. */
  lemma LinesStep(s: String, n: nat)
    requires n < |s| && n == Span(s, NotNewline)
    ensures Lines(s) == [StripCr(s[..n])] + Lines(s[n + 1..])
  {
  }

  /** Lines without line feeds and without a final carriage return come back
      from their join, unless the last of them is empty (a final line feed
      yields no line). */
  lemma {:induction false} LinesOfJoin(ls: seq<String>)
    requires forall i :: 0 <= i < |ls| ==> '\n' !in ls[i] && (ls[i] == [] || ls[i][|ls[i]| - 1] != '\r')
    requires ls == [] || ls[|ls| - 1] != []
    ensures Lines(JoinLines(ls)) == ls
    decreases |ls|
  {
    if |ls| == 1 {
      var s := ls[0];
      SpanOfConcat(s, [], NotNewline);
      assert s + [] == s;
    } else if |ls| > 1 {
      assert JoinLines(ls) == ls[0] + ("\n" + JoinLines(ls[1..]));
      LinesCons(ls[0], JoinLines(ls[1..]));
      LinesOfJoin(ls[1..]);
      assert ls == [ls[0]] + ls[1..];
    }
  }

  // ---------------------------------------------------------------------------
  // How a line is classified

  /** How the loop treats a line. */
  datatype LineKind =
    | Accepted(author: String, timestamp: i64, text: String)  // a header that opens a message
    | Rejected                                                // a header whose date does not parse
    | System                                                  // a system notice
    | Plain                                                   // any other line

  /** The tests of the loop body, in order: the pre-filter and
      `LINE_PATTERN`, then `parse_datetime` on the captured date, then
      `SYSTEM_PATTERN`. */
  function Classify(line: String, chrono: DateParser): LineKind {
    match HeaderOf(line)
    case Some(h) =>
      (match ParseDatetime(DateText(h.date), chrono)
       case Some(ts) => Accepted(h.author, ts, h.text)
       case None => Rejected)
    case None => if IsSystemLine(line) then System else Plain
  }

  type Classifier = String -> LineKind

  /** An accepted header always carries some text, so the message it opens
      is never empty. */
  ghost predicate OpensNonEmpty(c: Classifier) {
    forall line :: c(line).Accepted? ==> c(line).text != []
  }

  function ClassifierOf(chrono: DateParser): Classifier {
    line => Classify(line, chrono)
  }

  lemma ClassifierOpensNonEmpty(chrono: DateParser)
    ensures OpensNonEmpty(ClassifierOf(chrono))
  {
    forall line ensures Classify(line, chrono).Accepted? ==> Classify(line, chrono).text != [] {
      ClassifySound(line, chrono);
    }
  }

  /** An accepted header has an author and a content as `LINE_PATTERN`
      captures them. */
  lemma ClassifySound(line: String, chrono: DateParser)
    ensures Classify(line, chrono).Accepted? ==>
      var k := Classify(line, chrono);
      |k.author| > 0 && ':' !in k.author && |k.text| > 0 && '\n' !in k.text
  {
    var ho := HeaderOf(line);
    if ho.Some? {
      var h := ho.value;
      assert WellFormedHeader(h);
      if ParseDatetime(DateText(h.date), chrono).Some? {
        assert Classify(line, chrono) == Accepted(h.author, ParseDatetime(DateText(h.date), chrono).value, h.text);
      }
    }
  }

  /** Exactly the lines `LINE_PATTERN` matches are taken for headers (accepted
      or rejected), so a system line is never a header. */
  lemma ClassifyHeader(line: String, chrono: DateParser)
    ensures Classify(line, chrono).Accepted? || Classify(line, chrono).Rejected? <==> HeaderOf(line).Some?
  {
  }

  // ---------------------------------------------------------------------------
  // The loop state and its body

  /** The variables of the loop: `current_author`, `current_datetime`,
      `message_buffer` and the `participants` map the closure writes to. */
  datatype State = State(
    currentAuthor: Option<String>,
    currentDatetime: Option<i64>,
    messageBuffer: String,
    participants: Participants)

  const Init := State(None, None, "", map[])

  /** A message is only ever buffered after a header set author and time. */
  predicate Inv(st: State) {
    st.messageBuffer != [] ==> st.currentAuthor.Some? && st.currentDatetime.Some?
  }

  /** The messages filed under `name` so far. */
  function Lookup(p: Participants, name: String): seq<ParsedMessage> {
    if name in p then p[name] else []
  }

  /** The `save_message` closure: score the content, append the message to
      the author's list, creating the list on first use. */
  function SaveMessage(p: Participants, author: String, datetime: i64, content: String, score: Scorer): (r: Participants)
    ensures r.Keys == p.Keys + {author}
    ensures r[author] == Lookup(p, author) + [ParsedMessage(author, content, datetime, score(content))]
    ensures forall name :: name in p && name != author ==> r[name] == p[name]
  {
    p[author := Lookup(p, author) + [ParsedMessage(author, content, datetime, score(content))]]
  }

  /** "Save the previous message": when author, time and a non-empty buffer
      are all present, file the buffer and empty it. */
  function FlushPending(st: State, score: Scorer): (r: State)
    ensures r.currentAuthor == st.currentAuthor && r.currentDatetime == st.currentDatetime
    ensures Inv(st) ==> r.messageBuffer == []
  {
    if st.currentAuthor.Some? && st.currentDatetime.Some? && st.messageBuffer != [] then
      st.(participants := SaveMessage(st.participants, st.currentAuthor.value, st.currentDatetime.value, st.messageBuffer, score),
          messageBuffer := "")
    else
      st
  }

  /** The state update of one iteration, for a line of kind `k`. */
  function Apply(st: State, line: String, k: LineKind, score: Scorer): State {
    match k
    case Accepted(author, timestamp, text) =>
      var st1 := FlushPending(st, score);
      State(Some(author), Some(timestamp), st1.messageBuffer + text, st1.participants)
    case Rejected =>
      // a header whose date does not parse is "treated as a continuation"
      var st1 := FlushPending(st, score);
      if st1.messageBuffer != [] then st1.(messageBuffer := st1.messageBuffer + "\n" + line) else st1
    case System => st
    case Plain =>
      if st.messageBuffer != [] then st.(messageBuffer := st.messageBuffer + "\n" + line) else st
  }

  /** The loop over `ls` from state `st`. */
  function Run(st: State, ls: seq<String>, c: Classifier, score: Scorer): State
    decreases |ls|
  {
    if ls == [] then st else Run(Apply(st, ls[0], c(ls[0]), score), ls[1..], c, score)
  }

  /** "Save the last message" after the loop. */
  function Finish(st: State, score: Scorer): Participants {
    FlushPending(st, score).participants
  }

  /** Every iteration keeps the buffer tied to an author and a time. */
  lemma ApplyInv(st: State, line: String, k: LineKind, score: Scorer)
    requires Inv(st)
    ensures Inv(Apply(st, line, k, score))
  {
  }

  lemma {:induction false} RunInv(st: State, ls: seq<String>, c: Classifier, score: Scorer)
    requires Inv(st)
    ensures Inv(Run(st, ls, c, score))
    decreases |ls|
  {
    if ls != [] {
      ApplyInv(st, ls[0], c(ls[0]), score);
      RunInv(Apply(st, ls[0], c(ls[0]), score), ls[1..], c, score);
    }
  }

  /** A header whose date does not parse still ends the open message, and
      since that leaves the buffer empty, "treat as continuation" never
      appends anything: the header line is lost, and so are the plain lines
      after it up to the next accepted header. */
  lemma RejectedHeaderOnlyFlushes(st: State, line: String, score: Scorer)
    requires Inv(st)
    ensures Apply(st, line, Rejected, score) == FlushPending(st, score)
    ensures Apply(st, line, Rejected, score).messageBuffer == []
  {
  }

  /** With nothing buffered, a line that is not a header changes nothing:
      text in front of the first header is dropped. */
  lemma UnbufferedLineIgnored(st: State, line: String, k: LineKind, score: Scorer)
    requires st.messageBuffer == [] && (k.System? || k.Plain?)
    ensures Apply(st, line, k, score) == st
  {
  }

  // ---------------------------------------------------------------------------
  // What the lines mean, independently of the loop

  /** The continuation text the lines at the front of `ls` add to an open
      message: each plain line after a line feed, up to the next header. */
  function Continuation(ls: seq<String>, c: Classifier): String
    decreases |ls|
  {
    if ls == [] then ""
    else match c(ls[0])
      case Accepted(_, _, _) => ""
      case Rejected => ""
      case System => Continuation(ls[1..], c)
      case Plain => "\n" + ls[0] + Continuation(ls[1..], c)
  }

  /** The messages of a chat: one per accepted header, holding the header's
      text and the continuation that follows it. */
  function Messages(ls: seq<String>, c: Classifier, score: Scorer): (ms: seq<ParsedMessage>)
    ensures |ms| <= |ls|
    decreases |ls|
  {
    if ls == [] then []
    else match c(ls[0])
      case Accepted(author, ts, text) =>
        var content := text + Continuation(ls[1..], c);
        [ParsedMessage(author, content, ts, score(content))] + Messages(ls[1..], c, score)
      case Rejected => Messages(ls[1..], c, score)
      case System => Messages(ls[1..], c, score)
      case Plain => Messages(ls[1..], c, score)
  }

  /** The message open in `st`, completed by the continuation of `ls`. */
  function Pending(st: State, ls: seq<String>, c: Classifier, score: Scorer): seq<ParsedMessage> {
    if st.currentAuthor.Some? && st.currentDatetime.Some? && st.messageBuffer != [] then
      var content := st.messageBuffer + Continuation(ls, c);
      [ParsedMessage(st.currentAuthor.value, content, st.currentDatetime.value, score(content))]
    else
      []
  }

  /** Filing messages one after another. */
  function SaveAll(p: Participants, ms: seq<ParsedMessage>): Participants
    decreases |ms|
  {
    if ms == [] then p
    else SaveAll(p[ms[0].author := Lookup(p, ms[0].author) + [ms[0]]], ms[1..])
  }

  /** The messages of `ms` written by `name`, in order. */
  function ByAuthor(ms: seq<ParsedMessage>, name: String): (r: seq<ParsedMessage>)
    ensures forall i :: 0 <= i < |r| ==> r[i].author == name
    ensures forall k :: 0 <= k < |ms| && ms[k].author == name ==> ms[k] in r
    ensures |r| <= |ms|
  {
    if ms == [] then []
    else (if ms[0].author == name then [ms[0]] else []) + ByAuthor(ms[1..], name)
  }

  lemma {:induction false} SaveAllAppend(p: Participants, a: seq<ParsedMessage>, b: seq<ParsedMessage>)
    ensures SaveAll(p, a + b) == SaveAll(SaveAll(p, a), b)
    decreases |a|
  {
    if a == [] {
      assert a + b == b;
    } else {
      assert (a + b)[0] == a[0] && (a + b)[1..] == a[1..] + b;
      SaveAllAppend(p[a[0].author := Lookup(p, a[0].author) + [a[0]]], a[1..], b);
    }
  }

  /** Filing groups the messages by author and keeps their order: each
      author's list gains exactly that author's messages, and an author
      appears in the map once a message of theirs has been filed. */
  lemma {:induction false} SaveAllGroups(p: Participants, ms: seq<ParsedMessage>, name: String)
    ensures Lookup(SaveAll(p, ms), name) == Lookup(p, name) + ByAuthor(ms, name)
    ensures name in SaveAll(p, ms) <==> name in p || ByAuthor(ms, name) != []
    decreases |ms|
  {
    if ms != [] {
      var p1 := p[ms[0].author := Lookup(p, ms[0].author) + [ms[0]]];
      SaveAllGroups(p1, ms[1..], name);
      if ms[0].author == name {
        assert Lookup(p1, name) == Lookup(p, name) + [ms[0]];
        assert ByAuthor(ms, name) == [ms[0]] + ByAuthor(ms[1..], name);
      } else {
        assert Lookup(p1, name) == Lookup(p, name);
        assert ByAuthor(ms, name) == ByAuthor(ms[1..], name);
      }
    }
  }

  /** Saving the last message files the open message. */
  lemma FinishSaves(st: State, c: Classifier, score: Scorer)
    ensures Finish(st, score) == SaveAll(st.participants, Pending(st, [], c, score))
  {
    if st.currentAuthor.Some? && st.currentDatetime.Some? && st.messageBuffer != [] {
      var m := Pending(st, [], c, score)[0];
      assert st.messageBuffer + "" == st.messageBuffer;
      assert SaveAll(st.participants, [m]) == SaveAll(st.participants[m.author := Lookup(st.participants, m.author) + [m]], []);
    }
  }

  /** The loop body against the reference: what one iteration files and
      leaves open equals that line's contribution to `Messages` together
      with the open message. */
  lemma StepSaves(st: State, ls: seq<String>, c: Classifier, score: Scorer)
    requires Inv(st) && OpensNonEmpty(c) && ls != []
    ensures var st1 := Apply(st, ls[0], c(ls[0]), score);
      SaveAll(st.participants, Pending(st, ls, c, score) + Messages(ls, c, score))
        == SaveAll(st1.participants, Pending(st1, ls[1..], c, score) + Messages(ls[1..], c, score))
  {
    match c(ls[0])
    case Accepted(_, _, _) => AcceptedSaves(st, ls, c, score);
    case Rejected => RejectedSaves(st, ls, c, score);
    case System => SystemSaves(st, ls, c, score);
    case Plain => PlainSaves(st, ls, c, score);
  }

  /** `StepSaves` for a system line: nothing changes. */
  lemma SystemSaves(st: State, ls: seq<String>, c: Classifier, score: Scorer)
    requires ls != [] && c(ls[0]).System?
    ensures Apply(st, ls[0], c(ls[0]), score) == st
    ensures Pending(st, ls[1..], c, score) == Pending(st, ls, c, score)
    ensures Messages(ls[1..], c, score) == Messages(ls, c, score)
  {
    assert Continuation(ls, c) == Continuation(ls[1..], c);
  }

  /** `StepSaves` for a plain line: nothing is filed, and the line moves
      from the continuation of the open message into its buffer. */
  lemma PlainSaves(st: State, ls: seq<String>, c: Classifier, score: Scorer)
    requires ls != [] && c(ls[0]).Plain?
    ensures Apply(st, ls[0], c(ls[0]), score).participants == st.participants
    ensures Pending(Apply(st, ls[0], c(ls[0]), score), ls[1..], c, score) == Pending(st, ls, c, score)
    ensures Messages(ls[1..], c, score) == Messages(ls, c, score)
  {
    if st.messageBuffer != [] {
      var b := st.messageBuffer;
      assert Apply(st, ls[0], c(ls[0]), score) == st.(messageBuffer := b + "\n" + ls[0]);
      assert Continuation(ls, c) == "\n" + ls[0] + Continuation(ls[1..], c);
      assert b + Continuation(ls, c) == (b + "\n" + ls[0]) + Continuation(ls[1..], c);
    }
  }

  /** `StepSaves` for a rejected header: the open message is filed and no
      message is open afterwards. */
  lemma RejectedSaves(st: State, ls: seq<String>, c: Classifier, score: Scorer)
    requires Inv(st) && ls != [] && c(ls[0]).Rejected?
    ensures var st1 := Apply(st, ls[0], c(ls[0]), score);
      SaveAll(st.participants, Pending(st, ls, c, score) + Messages(ls, c, score))
        == SaveAll(st1.participants, Pending(st1, ls[1..], c, score) + Messages(ls[1..], c, score))
  {
    var st1 := Apply(st, ls[0], c(ls[0]), score);
    var flushed := Pending(st, ls, c, score);
    FinishSaves(st, c, score);
    assert flushed == Pending(st, [], c, score);
    assert st1 == FlushPending(st, score);
    assert Pending(st1, ls[1..], c, score) == [];
    assert Messages(ls, c, score) == Messages(ls[1..], c, score);
    assert [] + Messages(ls[1..], c, score) == Messages(ls[1..], c, score);
    SaveAllAppend(st.participants, flushed, Messages(ls[1..], c, score));
  }

  /** `StepSaves` for an accepted header: the open message is filed and the
      header opens the first message of `Messages`. */
  lemma AcceptedSaves(st: State, ls: seq<String>, c: Classifier, score: Scorer)
    requires Inv(st) && OpensNonEmpty(c) && ls != [] && c(ls[0]).Accepted?
    ensures var st1 := Apply(st, ls[0], c(ls[0]), score);
      SaveAll(st.participants, Pending(st, ls, c, score) + Messages(ls, c, score))
        == SaveAll(st1.participants, Pending(st1, ls[1..], c, score) + Messages(ls[1..], c, score))
  {
    var k := c(ls[0]);
    var st1 := Apply(st, ls[0], k, score);
    var flushed := Pending(st, ls, c, score);
    FinishSaves(st, c, score);
    assert flushed == Pending(st, [], c, score);
    assert st1 == State(Some(k.author), Some(k.timestamp), k.text, FlushPending(st, score).participants);
    var content := k.text + Continuation(ls[1..], c);
    var first := Pending(st1, ls[1..], c, score);
    assert first == [ParsedMessage(k.author, content, k.timestamp, score(content))];
    assert Messages(ls, c, score) == first + Messages(ls[1..], c, score);
    assert flushed + Messages(ls, c, score) == flushed + (first + Messages(ls[1..], c, score));
    SaveAllAppend(st.participants, flushed, first + Messages(ls[1..], c, score));
  }

  /** The main theorem: running the loop from any reachable state over `ls`
      and saving the last message files the open message and then exactly
      the messages of `ls`, in order. */
  lemma {:induction false} RunFinish(st: State, ls: seq<String>, c: Classifier, score: Scorer)
    requires Inv(st) && OpensNonEmpty(c)
    ensures Finish(Run(st, ls, c, score), score) == SaveAll(st.participants, Pending(st, ls, c, score) + Messages(ls, c, score))
    decreases |ls|
  {
    if ls == [] {
      FinishSaves(st, c, score);
      assert Pending(st, ls, c, score) + [] == Pending(st, ls, c, score);
    } else {
      ApplyInv(st, ls[0], c(ls[0]), score);
      StepSaves(st, ls, c, score);
      RunFinish(Apply(st, ls[0], c(ls[0]), score), ls[1..], c, score);
    }
  }

  /** The participants map of a whole chat, described without the loop. */
  lemma ChatMessages(ls: seq<String>, c: Classifier, score: Scorer)
    requires OpensNonEmpty(c)
    ensures Finish(Run(Init, ls, c, score), score) == SaveAll(map[], Messages(ls, c, score))
  {
    RunFinish(Init, ls, c, score);
    assert Pending(Init, ls, c, score) + Messages(ls, c, score) == Messages(ls, c, score);
  }

  // ---------------------------------------------------------------------------
  // Consequences for the messages

  /** The lines of `ls` that open a message. */
  function AcceptedLines(ls: seq<String>, c: Classifier): (r: seq<String>)
    ensures forall i :: 0 <= i < |r| ==> c(r[i]).Accepted?
    ensures forall k :: 0 <= k < |ls| && c(ls[k]).Accepted? ==> ls[k] in r
    ensures |r| <= |ls|
  {
    if ls == [] then []
    else (if c(ls[0]).Accepted? then [ls[0]] else []) + AcceptedLines(ls[1..], c)
  }

  /** Selecting the accepted lines keeps their order: it distributes over
      concatenation. */
  lemma {:induction false} AcceptedLinesAppend(a: seq<String>, b: seq<String>, c: Classifier)
    ensures AcceptedLines(a + b, c) == AcceptedLines(a, c) + AcceptedLines(b, c)
    decreases |a|
  {
    if a == [] {
      assert a + b == b;
    } else {
      assert (a + b)[1..] == a[1..] + b;
      AcceptedLinesAppend(a[1..], b, c);
    }
  }

  /** The number of messages a chat yields is the number of accepted headers. */
  lemma {:induction false} MessageCount(ls: seq<String>, c: Classifier, score: Scorer)
    ensures |Messages(ls, c, score)| == |AcceptedLines(ls, c)|
    decreases |ls|
  {
    if ls != [] {
      MessageCount(ls[1..], c, score);
    }
  }

  /** The i-th message comes from the i-th accepted header: same author and
      timestamp, and content that starts with the header's text. */
  lemma {:induction false} MessageFromHeader(ls: seq<String>, c: Classifier, score: Scorer, i: nat)
    requires i < |Messages(ls, c, score)|
    ensures i < |AcceptedLines(ls, c)|
    ensures var m := Messages(ls, c, score)[i]; var k := c(AcceptedLines(ls, c)[i]);
      m.author == k.author && m.timestamp == k.timestamp && k.text <= m.content && m.sentimentScore == score(m.content)
    decreases |ls|
  {
    MessageCount(ls, c, score);
    if ls != [] {
      match c(ls[0])
      case Accepted(_, _, _) =>
        if i > 0 {
          MessageFromHeader(ls[1..], c, score, i - 1);
        }
      case Rejected => MessageFromHeader(ls[1..], c, score, i);
      case System => MessageFromHeader(ls[1..], c, score, i);
      case Plain => MessageFromHeader(ls[1..], c, score, i);
    }
  }

  // ---------------------------------------------------------------------------
  // The parser

  /** The participants list built from the map: one entry per author, each
      holding that author's messages. */
  predicate ListsParticipants(ps: seq<ParsedParticipant>, p: Participants) {
    && (forall i :: 0 <= i < |ps| ==> ps[i].name in p && ps[i].messages == p[ps[i].name])
    && (forall i, j :: 0 <= i < j < |ps| ==> ps[i].name != ps[j].name)
    && (forall name :: name in p ==> exists i :: 0 <= i < |ps| && ps[i].name == name)
  }

  /** The names listed in `ps`. */
  function Names(ps: seq<ParsedParticipant>): set<String> {
    if ps == [] then {} else {ps[0].name} + Names(ps[1..])
  }

  /** A name is in `Names(ps)` exactly when some entry of `ps` has it. */
  lemma {:induction false} NamesMembers(ps: seq<ParsedParticipant>)
    ensures forall name :: name in Names(ps) <==> exists i :: 0 <= i < |ps| && ps[i].name == name
  {
    if ps != [] {
      NamesMembers(ps[1..]);
      assert forall i :: 1 <= i < |ps| ==> ps[1..][i - 1] == ps[i];
    }
  }

  /** Distinct names are as many as the entries. */
  lemma {:induction false} NamesOfDistinct(ps: seq<ParsedParticipant>)
    requires forall i, j :: 0 <= i < j < |ps| ==> ps[i].name != ps[j].name
    ensures |Names(ps)| == |ps|
  {
    if ps != [] {
      NamesOfDistinct(ps[1..]);
      NamesMembers(ps[1..]);
      assert ps[0].name !in Names(ps[1..]);
    }
  }

  /** A participants list has one entry per author of the map, no more. */
  lemma ParticipantCount(ps: seq<ParsedParticipant>, p: Participants)
    requires ListsParticipants(ps, p)
    ensures |ps| == |p.Keys|
  {
    NamesOfDistinct(ps);
    NamesMembers(ps);
    assert Names(ps) == p.Keys;
  }

  /** `participants.into_iter().map(...).collect()`: the map's entries in an
      order the map chooses. */
  method CollectParticipants(p: Participants) returns (ps: seq<ParsedParticipant>)
    ensures ListsParticipants(ps, p)
  {
    ps := [];
    var rest := p.Keys;
    ghost var pos: map<String, nat> := map[];
    while rest != {}
      invariant rest <= p.Keys
      invariant forall i :: 0 <= i < |ps| ==> ps[i].name in p.Keys - rest && ps[i].messages == p[ps[i].name]
      invariant forall i, j :: 0 <= i < j < |ps| ==> ps[i].name != ps[j].name
      invariant forall name :: name in p.Keys - rest ==> name in pos && pos[name] < |ps| && ps[pos[name]].name == name
      decreases |rest|
    {
      var name :| name in rest;
      pos := pos[name := |ps|];
      ps := ps + [ParsedParticipant(name, p[name])];
      rest := rest - {name};
    }
    forall name | name in p
      ensures exists i :: 0 <= i < |ps| && ps[i].name == name
    {
      assert ps[pos[name]].name == name;
    }
  }

  /** Filing into an empty map gives each filed name exactly its
      messages, and at least one. */
  lemma FiledByAuthor(ms: seq<ParsedMessage>, name: String)
    requires name in SaveAll(map[], ms)
    ensures SaveAll(map[], ms)[name] == ByAuthor(ms, name)
    ensures ByAuthor(ms, name) != []
  {
    SaveAllGroups(map[], ms, name);
  }

  /** Every author of a filed message is a key. */
  lemma AuthorFiled(ms: seq<ParsedMessage>, k: nat)
    requires k < |ms|
    ensures ms[k].author in SaveAll(map[], ms)
  {
    SaveAllGroups(map[], ms, ms[k].author);
  }

  /** A list of the filed messages gives every author exactly the messages
      written by that author, in order, and lists every author. */
  lemma ListedByAuthor(ms: seq<ParsedMessage>, ps: seq<ParsedParticipant>)
    requires ListsParticipants(ps, SaveAll(map[], ms))
    ensures forall i :: 0 <= i < |ps| ==> ps[i].messages == ByAuthor(ms, ps[i].name) && ps[i].messages != []
    ensures forall k :: 0 <= k < |ms| ==> exists i :: 0 <= i < |ps| && ps[i].name == ms[k].author
  {
    forall i | 0 <= i < |ps| {
      FiledByAuthor(ms, ps[i].name);
    }
    forall k | 0 <= k < |ms| {
      AuthorFiled(ms, k);
    }
  }

  /** `parse_whatsapp_chat`: the loop over the lines of `content`, the final
      save, and the conversion of the map into a list. The result lists, for
      every author, exactly the messages of the chat written by that author,
      in the order of the chat. */
  method ParseWhatsappChat(content: String, chrono: DateParser, score: Scorer) returns (chat: ParsedChat)
    ensures ListsParticipants(chat.participants, SaveAll(map[], Messages(Lines(content), ClassifierOf(chrono), score)))
    ensures forall i :: 0 <= i < |chat.participants| ==>
      chat.participants[i].messages == ByAuthor(Messages(Lines(content), ClassifierOf(chrono), score), chat.participants[i].name)
  {
    ghost var c := ClassifierOf(chrono);
    var participants: Participants := map[];
    var lines := Lines(content);
    var currentAuthor: Option<String> := None;
    var currentDatetime: Option<i64> := None;
    var messageBuffer: String := "";

    for i := 0 to |lines|
      invariant Inv(State(currentAuthor, currentDatetime, messageBuffer, participants))
      invariant Run(State(currentAuthor, currentDatetime, messageBuffer, participants), lines[i..], c, score) == Run(Init, lines, c, score)
    {
      ghost var before := State(currentAuthor, currentDatetime, messageBuffer, participants);
      var line := lines[i];
      assert lines[i..][0] == line && lines[i..][1..] == lines[i + 1..];
      ApplyInv(before, line, c(line), score);
      if Utf8Len(line) > 20 && Contains(line, " - ") && Contains(line, ": ") {
        var captures := MatchLine(line);
        if captures.Some? {
          // save the previous message
          if currentAuthor.Some? && currentDatetime.Some? {
            if messageBuffer != [] {
              participants := SaveMessage(participants, currentAuthor.value, currentDatetime.value, messageBuffer, score);
              messageBuffer := "";
            }
          }
          var h := captures.value;
          var timestamp := ParseDatetime(DateText(h.date), chrono);
          if timestamp.Some? {
            currentAuthor := Some(h.author);
            currentDatetime := Some(timestamp.value);
            messageBuffer := messageBuffer + h.text;
          } else {
            if messageBuffer != [] {
              messageBuffer := messageBuffer + "\n" + line;
            }
          }
          assert State(currentAuthor, currentDatetime, messageBuffer, participants) == Apply(before, line, c(line), score);
          continue;
        }
      }
      if IsSystemLine(line) {
        assert Apply(before, line, c(line), score) == before;
        continue;
      }
      if messageBuffer != [] {
        messageBuffer := messageBuffer + "\n" + line;
      }
      assert State(currentAuthor, currentDatetime, messageBuffer, participants) == Apply(before, line, c(line), score);
    }

    ghost var last := State(currentAuthor, currentDatetime, messageBuffer, participants);
    assert last == Run(Init, lines, c, score);
    // save the last message
    if currentAuthor.Some? && currentDatetime.Some? {
      if messageBuffer != [] {
        participants := SaveMessage(participants, currentAuthor.value, currentDatetime.value, messageBuffer, score);
      }
    }
    assert participants == Finish(last, score);
    ClassifierOpensNonEmpty(chrono);
    ChatMessages(lines, c, score);
    var list := CollectParticipants(participants);
    chat := ParsedChat(list);
    ListedByAuthor(Messages(lines, c, score), chat.participants);
  }
}
