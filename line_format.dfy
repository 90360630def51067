/**
  The wire format shared by the emitter and the reader: `[<date>] <LEVEL> <message>` followed by a
  newline, and a hand-written matcher for the reader's regular expression
  `/^\[([^\]]+)\] (\w+) (.*)/`.
 */
module LineFormat {
  import opened Wrappers
  import opened Text
  import opened Severity

  /** The object the `data` handler builds from a matching line. The date stays the raw token. */
  datatype Record = Record(date: string, level: RankLookup, levelString: string, msg: string)

  /** What `[^\]]+` captures: a non-empty run without a closing bracket. */
  predicate IsDateToken(d: string) {
    |d| > 0 && ']' !in d
  }

  /** What `\w+` captures. */
  predicate IsLevelToken(w: string) {
    |w| > 0 && forall i :: 0 <= i < |w| ==> IsWordChar(w[i])
  }

  /** What `.*` can capture: no line terminator. */
  predicate IsMessageText(m: string) {
    forall i :: 0 <= i < |m| ==> IsMessageChar(m[i])
  }

  /** A line without its newline, as `log` assembles it. */
  function LineBody(date: string, levelString: string, msg: string): (b: string)
    ensures |b| > 0 && b[0] == '['
  {
    "[" + (date + ("] " + (levelString + (" " + msg))))
  }

  /** A line body is a single line exactly when its three fields are free of newlines. */
  lemma LineBodyOneLine(date: string, levelString: string, msg: string)
    ensures '\n' in LineBody(date, levelString, msg) <==> '\n' in date || '\n' in levelString || '\n' in msg
  {
  }

  /** A line body followed by more text, regrouped field by field. */
  lemma BodyThen(d: string, w: string, m: string, after: string)
    ensures LineBody(d, w, m) + after == "[" + (d + ("] " + (w + (" " + (m + after)))))
  {
    assert (" " + m) + after == " " + (m + after);
    assert (w + (" " + m)) + after == w + ((" " + m) + after);
    assert ("] " + (w + (" " + m))) + after == "] " + ((w + (" " + m)) + after);
    assert (d + ("] " + (w + (" " + m)))) + after == d + (("] " + (w + (" " + m))) + after);
  }

  /** The exact text `log` writes for one admitted message. */
  function FormatLine(date: string, levelString: string, msg: string): (line: string)
    ensures EndsInNewline(line)
    ensures line[..|line| - 1] == LineBody(date, levelString, msg)
  {
    LineBody(date, levelString, msg) + "\n"
  }

  /**
    The `^\[([^\]]+)\] ` part: the date token between the leading '[' and the first ']', which must be
    followed by a space. Returns the token and the text after that space.
   */
  function DateField(line: string): (r: Option<(string, string)>)
    ensures r.Some? ==> IsDateToken(r.value.0) && line == "[" + (r.value.0 + ("] " + r.value.1))
  {
    if |line| == 0 || line[0] != '[' then None
    else
      var afterOpen := line[1..];
      match IndexOf(afterOpen, ']')
      case None => None
      case Some(k) =>
        if k == 0 || k + 1 == |afterOpen| || afterOpen[k + 1] != ' ' then None
        else
          assert afterOpen == afterOpen[..k] + ("] " + afterOpen[k + 2..]);
          Some((afterOpen[..k], afterOpen[k + 2..]))
  }

  /** The `(\w+) ` part: a maximal run of word characters followed by a space. */
  function LevelField(rest: string): (r: Option<(string, string)>)
    ensures r.Some? ==> IsLevelToken(r.value.0) && rest == r.value.0 + (" " + r.value.1)
  {
    var w := PrefixWhile(rest, IsWordChar);
    if w == 0 || w == |rest| || rest[w] != ' ' then None
    else
      assert rest == rest[..w] + (" " + rest[w + 1..]);
      Some((rest[..w], rest[w + 1..]))
  }

  /** The `(.*)` part: the longest prefix free of line terminators, and what the match leaves over. */
  function MessageField(tail: string): (r: (string, string))
    ensures IsMessageText(r.0) && tail == r.0 + r.1
    ensures r.1 == [] || IsLineTerminator(r.1[0])
  {
    var m := PrefixWhile(tail, IsMessageChar);
    assert tail == tail[..m] + tail[m..];
    (tail[..m], tail[m..])
  }

  /**
    The regular expression, applied to one line. It is anchored only at the start, so when it
    matches, the message is the longest prefix of the rest of the line free of line terminators,
    and whatever follows is ignored. A line that does not match gives None; the level token
    is looked up but an unknown token still yields a record.
   */
  function ParseLine(line: string): (r: Option<Record>)
    ensures r.Some? ==>
      && IsDateToken(r.value.date)
      && IsLevelToken(r.value.levelString)
      && IsMessageText(r.value.msg)
      && r.value.level == Lookup(r.value.levelString)
  {
    match DateField(line)
    case None => None
    case Some((date, rest)) =>
      match LevelField(rest)
      case None => None
      case Some((word, tail)) =>
        var (msg, _) := MessageField(tail);
        Some(Record(date, Lookup(word), word, msg))
  }

  /**
    One direction of the grammar: a record comes only from a line that starts with
    `[date] level msg` and continues, if at all, with a line terminator.
   */
  lemma ParseLineSound(line: string)
    requires ParseLine(line).Some?
    ensures var r := ParseLine(line).value;
      var body := LineBody(r.date, r.levelString, r.msg);
      && body <= line
      && (|body| == |line| || IsLineTerminator(line[|body|]))
  {
    var (date, rest) := DateField(line).value;
    var (word, tail) := LevelField(rest).value;
    var (msg, after) := MessageField(tail);
    BodyThen(date, word, msg, after);
  }

  lemma DateFieldOf(d: string, rest: string)
    requires IsDateToken(d)
    ensures DateField("[" + (d + ("] " + rest))) == Some((d, rest))
  {
    var afterOpen := ("[" + (d + ("] " + rest)))[1..];
    assert afterOpen == d + ("] " + rest);
    assert afterOpen[|d|] == ']' && afterOpen[..|d|] == d && afterOpen[|d| + 1] == ' ';
    assert afterOpen[|d| + 2..] == rest;
  }

  lemma LevelFieldOf(w: string, tail: string)
    requires IsLevelToken(w)
    ensures LevelField(w + (" " + tail)) == Some((w, tail))
  {
    var rest := w + (" " + tail);
    assert rest[|w|] == ' ' && rest[..|w|] == w && rest[|w| + 1..] == tail;
    assert PrefixWhile(rest, IsWordChar) == |w|;
  }

  lemma MessageFieldOf(m: string, tail: string)
    requires IsMessageText(m)
    requires tail == [] || IsLineTerminator(tail[0])
    ensures MessageField(m + tail) == (m, tail)
  {
    assert (m + tail)[..|m|] == m && (m + tail)[|m|..] == tail;
    assert PrefixWhile(m + tail, IsMessageChar) == |m|;
  }

  /**
    The other direction of the grammar: every line of the form `[D] W M` followed by nothing or by a
    line terminator matches, with exactly these captures.
   */
  lemma ParseLineComplete(d: string, w: string, m: string, tail: string)
    requires IsDateToken(d) && IsLevelToken(w) && IsMessageText(m)
    requires tail == [] || IsLineTerminator(tail[0])
    ensures ParseLine(LineBody(d, w, m) + tail) == Some(Record(d, Lookup(w), w, m))
  {
    BodyThen(d, w, m, tail);
    DateFieldOf(d, w + (" " + (m + tail)));
    LevelFieldOf(w, m + tail);
    MessageFieldOf(m, tail);
  }

  /** Every level name is a `\w+` token. */
  lemma NameIsLevelToken(l: Level)
    ensures IsLevelToken(Name(l))
  {
    match l
    case Emergency =>
    case Alert =>
    case Critical =>
    case Error =>
    case Warning =>
    case Notice =>
    case Info =>
    case Debug =>
  }

  /**
    A line `log` writes for a known level, a date token without ']' and a message without line
    terminators parses back to that date, that level and that message.
   */
  lemma FormatParseRoundTrip(d: string, l: Level, m: string)
    requires IsDateToken(d) && IsMessageText(m)
    ensures ParseLine(FormatLine(d, Name(l), m)) == Some(Record(d, Known(Rank(l)), Name(l), m))
  {
    NameIsLevelToken(l);
    NameRoundTrip(l);
    assert IsLineTerminator('\n');
    ParseLineComplete(d, Name(l), m, "\n");
  }

  /** A line that does not start with '[' (for instance `not a log line`) yields no record. */
  lemma NoBracketNoRecord(line: string)
    requires |line| == 0 || line[0] != '['
    ensures ParseLine(line) == None
  {
  }
}
