/**
  The reader's `data` handler as a pure state machine over its text buffer: chunks are appended, and
  only when the whole buffer ends in a newline is it split, parsed line by line and cleared.
 */
module Reader {
  import opened Wrappers
  import opened Text
  import opened Severity
  import opened LineFormat

  /** What the reader reports to its observer: a parsed record, or the end of the input. */
  datatype Event = Line(record: Record) | End

  /** The events for one piece of a split buffer: empty pieces and non-matching pieces give none. */
  function PieceEvents(piece: string): seq<Event> {
    if |piece| == 0 then []
    else
      match ParseLine(piece)
      case Some(r) => [Line(r)]
      case None => []
  }

  /** The events for a run of pieces, in order (built from the back, as a loop over them appends). */
  function LineEvents(pieces: seq<string>): seq<Event> {
    if pieces == [] then []
    else LineEvents(pieces[..|pieces| - 1]) + PieceEvents(pieces[|pieces| - 1])
  }

  /** The events a flush of `text` produces. */
  function Flush(text: string): seq<Event> {
    LineEvents(Split(text))
  }

  /** The line records among some events, in order. */
  function Lines(events: seq<Event>): seq<Event> {
    if events == [] then []
    else Lines(events[..|events| - 1]) + (if events[|events| - 1].Line? then [events[|events| - 1]] else [])
  }

  /** The buffer after a chunk and the events that chunk produced. */
  datatype Fed = Fed(buf: string, emitted: seq<Event>)

  /**
    One `data` notification. The buffer never ends in a newline afterwards, it is either emptied
    or holds everything it was given, and nothing is lost: what was emitted followed by what a later
    flush of the remaining buffer would emit is what flushing all the text at once emits.
   */
  function Step(buf: string, chunk: string): (f: Fed)
    ensures !EndsInNewline(f.buf)
    ensures f.buf == "" || (f.buf == buf + chunk && f.emitted == [])
    ensures f.emitted + Flush(f.buf) == Flush(buf + chunk)
  {
    var text := buf + chunk;
    if EndsInNewline(text) then Fed("", Flush(text)) else Fed(text, [])
  }

  /** A sequence of `data` notifications, in order. */
  function Run(buf: string, chunks: seq<string>): (r: Fed)
    decreases |chunks|
  {
    if chunks == [] then Fed(buf, [])
    else
      var first := Step(buf, chunks[0]);
      var later := Run(first.buf, chunks[1..]);
      Fed(later.buf, first.emitted + later.emitted)
  }

  lemma {:induction false} LineEventsAppend(a: seq<string>, b: seq<string>)
    ensures LineEvents(a + b) == LineEvents(a) + LineEvents(b)
    decreases |b|
  {
    if b != [] {
      var b' := b[..|b| - 1];
      assert (a + b)[..|a + b| - 1] == a + b';
      LineEventsAppend(a, b');
    } else {
      assert a + b == a;
    }
  }

  /** Every event a flush produces is a line record. */
  lemma {:induction false} LineEventsAreLines(pieces: seq<string>)
    ensures Lines(LineEvents(pieces)) == LineEvents(pieces)
  {
    if pieces != [] {
      var init := pieces[..|pieces| - 1];
      var es := LineEvents(init);
      var p := PieceEvents(pieces[|pieces| - 1]);
      LineEventsAreLines(init);
      LinesAppend(es, p);
    }
  }

  lemma {:induction false} LinesAppend(a: seq<Event>, b: seq<Event>)
    ensures Lines(a + b) == Lines(a) + Lines(b)
    decreases |b|
  {
    if b != [] {
      var b' := b[..|b| - 1];
      assert (a + b)[..|a + b| - 1] == a + b';
      assert (a + b)[|a + b| - 1] == b[|b| - 1];
      LinesAppend(a, b');
    } else {
      assert a + b == a;
    }
  }

  /** A piece yields at most one event: its record, exactly when it is non-empty and matches. */
  lemma PieceEventsMeaning(piece: string)
    ensures |PieceEvents(piece)| <= 1
    ensures PieceEvents(piece) != [] <==> |piece| > 0 && ParseLine(piece).Some?
    ensures PieceEvents(piece) != [] ==> PieceEvents(piece)[0] == Line(ParseLine(piece).value)
  {
  }

  /** A run of pieces yields at most one event per piece. */
  lemma {:induction false} LineEventsAtMostOnePerPiece(pieces: seq<string>)
    ensures |LineEvents(pieces)| <= |pieces|
  {
    if pieces != [] {
      LineEventsAtMostOnePerPiece(pieces[..|pieces| - 1]);
      PieceEventsMeaning(pieces[|pieces| - 1]);
    }
  }

  lemma LineEventsSingle(p: string)
    ensures LineEvents([p]) == PieceEvents(p)
  {
    assert [p][..0] == [];
  }

  lemma FlushEmpty()
    ensures Flush("") == []
  {
    LineEventsSingle("");
  }

  /** One newline-terminated line flushes to that line's events alone. */
  lemma FlushOneLine(body: string)
    requires '\n' !in body
    ensures Flush(body + "\n") == PieceEvents(body)
  {
    SplitCons(body, "");
    assert body + "\n" + "" == body + "\n";
    assert Split(body + "\n") == [body] + [""];
    LineEventsAppend([body], [""]);
    LineEventsSingle(body);
    LineEventsSingle("");
  }

  /** A trailing empty piece adds no events. */
  lemma LineEventsDropEmpty(init: seq<string>)
    ensures LineEvents(init + [""]) == LineEvents(init)
  {
    assert (init + [""])[..|init|] == init;
  }

  /** Flushing text that ends in a newline and then more text is flushing each in turn. */
  lemma FlushAppend(x: string, y: string)
    requires x == "" || EndsInNewline(x)
    ensures Flush(x + y) == Flush(x) + Flush(y)
  {
    if x == "" {
      assert x + y == y;
      FlushEmpty();
    } else {
      SplitAppend(x, y);
      var px, py := Split(x), Split(y);
      var init := px[..|px| - 1];
      assert px == init + [""];
      calc {
        Flush(x + y);
        LineEvents(init + py);
        { LineEventsAppend(init, py); }
        LineEvents(init) + LineEvents(py);
        { LineEventsDropEmpty(init); }
        LineEvents(px) + LineEvents(py);
      }
    }
  }

  /**
    Over any sequence of chunks, from a buffer that does not end in a newline, the events emitted
    followed by a flush of the final buffer are those of flushing all the text at once: no line is
    lost, duplicated or reordered, whatever the chunk boundaries.
   */
  lemma {:induction false} RunAccounts(buf: string, chunks: seq<string>)
    ensures var r := Run(buf, chunks); r.emitted + Flush(r.buf) == Flush(buf + Concat(chunks))
    decreases |chunks|
  {
    if chunks == [] {
      assert buf + Concat(chunks) == buf;
    } else {
      var c, rest := chunks[0], Concat(chunks[1..]);
      var text := buf + c;
      assert Concat(chunks) == c + rest;
      assert buf + (c + rest) == text + rest;
      var first := Step(buf, c);
      RunAccounts(first.buf, chunks[1..]);
      var later := Run(first.buf, chunks[1..]);
      assert Run(buf, chunks) == Fed(later.buf, first.emitted + later.emitted);
      var e1, e2, tail := first.emitted, later.emitted, Flush(later.buf);
      AppendAssoc(e1, e2, tail);
      assert e2 + tail == Flush(first.buf + rest);
      var whole := Flush(text + rest);
      assert Flush(buf + Concat(chunks)) == whole;
      if EndsInNewline(text) {
        assert e1 == Flush(text) && first.buf == "";
        assert "" + rest == rest;
        FlushAppend(text, rest);
        assert e1 + (e2 + tail) == whole;
      } else {
        assert e1 == [] && first.buf == text;
        assert e1 + (e2 + tail) == whole;
      }
    }
  }

  /**
    When all the text given so far ends in a newline (or is empty), the buffer ends up empty: the
    last flush took everything, so no unterminated partial line is ever discarded by a clear.
   */
  lemma {:induction false} RunDrains(buf: string, chunks: seq<string>)
    requires !EndsInNewline(buf)
    requires var text := buf + Concat(chunks); text == "" || EndsInNewline(text)
    ensures Run(buf, chunks).buf == ""
    decreases |chunks|
  {
    if chunks == [] {
      assert buf + Concat(chunks) == buf;
    } else {
      var c, rest := chunks[0], Concat(chunks[1..]);
      var text := buf + c;
      assert Concat(chunks) == c + rest;
      assert buf + (c + rest) == text + rest;
      var first := Step(buf, c);
      if rest == "" {
        assert text + rest == text;
        assert first.buf == "";
        assert first.buf + rest == "";
      } else {
        assert EndsInNewline(rest);
        assert EndsInNewline(first.buf + rest);
      }
      RunDrains(first.buf, chunks[1..]);
    }
  }

  /**
    Chunking independence: any split into chunks of a text that ends in a newline produces the
    same events as feeding the whole text as one chunk, and leaves the buffer empty.
   */
  lemma ChunkingIndependence(chunks: seq<string>)
    requires EndsInNewline(Concat(chunks))
    ensures Run("", chunks).emitted == Run("", [Concat(chunks)]).emitted == Flush(Concat(chunks))
    ensures Run("", chunks).buf == ""
  {
    var text := Concat(chunks);
    assert Concat([text]) == text by {
      assert Concat([text]) == text + Concat([]);
      assert text + "" == text;
    }
    assert "" + text == text;
    FlushEmpty();
    RunDrains("", chunks);
    RunAccounts("", chunks);
    var many := Run("", chunks).emitted;
    assert many + [] == many;
    RunDrains("", [text]);
    RunAccounts("", [text]);
    var one := Run("", [text]).emitted;
    assert one + [] == one;
  }

  /** The events of a whole input: those of its `data` notifications, then the one `end`. */
  function Session(chunks: seq<string>): seq<Event> {
    Run("", chunks).emitted + [End]
  }

  /** Only line records survive `Lines`. */
  lemma {:induction false} LinesAreLineRecords(events: seq<Event>)
    ensures forall i :: 0 <= i < |Lines(events)| ==> Lines(events)[i].Line?
  {
    if events != [] {
      LinesAreLineRecords(events[..|events| - 1]);
    }
  }

  /** The `data` notifications report only line records. */
  lemma {:induction false} RunReportsLines(buf: string, chunks: seq<string>)
    ensures Lines(Run(buf, chunks).emitted) == Run(buf, chunks).emitted
    decreases |chunks|
  {
    if chunks != [] {
      var first := Step(buf, chunks[0]);
      var later := Run(first.buf, chunks[1..]);
      RunReportsLines(first.buf, chunks[1..]);
      LineEventsAreLines(Split(buf + chunks[0]));
      LinesAppend(first.emitted, later.emitted);
    }
  }

  /** However many lines came before, a whole input reports exactly one `end`, and it comes last. */
  lemma OneEndEvent(chunks: seq<string>)
    ensures var s := Session(chunks); s[|s| - 1] == End && forall i :: 0 <= i < |s| - 1 ==> s[i].Line?
  {
    var lines := Run("", chunks).emitted;
    RunReportsLines("", chunks);
    LinesAreLineRecords(lines);
    assert Session(chunks)[..|lines|] == lines;
  }

  /** A chunk whose buffer does not end in a newline emits nothing and is kept whole. */
  lemma PartialChunkBuffered(buf: string, chunk: string)
    requires !EndsInNewline(buf + chunk)
    ensures Step(buf, chunk) == Fed(buf + chunk, [])
  {
  }

  /** A line the emitter writes, read back from an empty buffer, is exactly one record. */
  lemma ReadBackLine(d: string, l: Level, m: string)
    requires IsDateToken(d) && '\n' !in d && IsMessageText(m)
    ensures Flush(FormatLine(d, Name(l), m)) == [Line(Record(d, Known(Rank(l)), Name(l), m))]
    ensures Step("", FormatLine(d, Name(l), m)) == Fed("", [Line(Record(d, Known(Rank(l)), Name(l), m))])
  {
    var body := LineBody(d, Name(l), m);
    assert '\n' !in body by {
      NameIsLevelToken(l);
      assert IsLineTerminator('\n');
      assert body == "[" + (d + ("] " + (Name(l) + (" " + m))));
    }
    FlushOneLine(body);
    assert body + "" == body;
    NameIsLevelToken(l);
    NameRoundTrip(l);
    ParseLineComplete(d, Name(l), m, "");
    assert "" + FormatLine(d, Name(l), m) == FormatLine(d, Name(l), m);
  }

  /** A chunk such as `not a log line\n` produces no event and raises nothing. */
  lemma MalformedLineDropped(text: string)
    requires '\n' !in text && (|text| == 0 || text[0] != '[')
    ensures Flush(text + "\n") == []
  {
    FlushOneLine(text);
    NoBracketNoRecord(text);
  }

  /** A message the emitter can write and the reader can read back unchanged. */
  predicate Readable(entry: (string, Level, string)) {
    IsDateToken(entry.0) && '\n' !in entry.0 && IsMessageText(entry.2)
  }

  /** The text of a log written one line per entry, in order. */
  function Written(entries: seq<(string, Level, string)>): string {
    if entries == [] then ""
    else FormatLine(entries[0].0, Name(entries[0].1), entries[0].2) + Written(entries[1..])
  }

  /** The events that reading back such a log should produce. */
  function Expected(entries: seq<(string, Level, string)>): seq<Event> {
    if entries == [] then []
    else
      var (d, l, m) := entries[0];
      [Line(Record(d, Known(Rank(l)), Name(l), m))] + Expected(entries[1..])
  }

  /** Reading back a whole log gives one record per line written, in order. */
  lemma {:induction false} ReadBackLog(entries: seq<(string, Level, string)>)
    requires forall i :: 0 <= i < |entries| ==> Readable(entries[i])
    ensures Flush(Written(entries)) == Expected(entries)
  {
    if entries == [] {
      FlushEmpty();
    } else {
      var (d, l, m) := entries[0];
      var line := FormatLine(d, Name(l), m);
      assert Readable(entries[0]);
      ReadBackLine(d, l, m);
      ReadBackLog(entries[1..]);
      FlushAppend(line, Written(entries[1..]));
    }
  }

  /**
    However a non-empty log is cut into chunks, even in the middle of a line, the reader reports
    every line of it, in order, and ends with an empty buffer: a clear never discards a partial line.
   */
  lemma ReadBackAnyChunking(entries: seq<(string, Level, string)>, chunks: seq<string>)
    requires |entries| > 0 && forall i :: 0 <= i < |entries| ==> Readable(entries[i])
    requires Concat(chunks) == Written(entries)
    ensures Run("", chunks).emitted == Expected(entries)
    ensures Run("", chunks).buf == ""
  {
    WrittenEndsInNewline(entries);
    ChunkingIndependence(chunks);
    ReadBackLog(entries);
  }

  lemma {:induction false} WrittenEndsInNewline(entries: seq<(string, Level, string)>)
    requires |entries| > 0
    ensures EndsInNewline(Written(entries))
  {
    var line := FormatLine(entries[0].0, Name(entries[0].1), entries[0].2);
    var rest := Written(entries[1..]);
    if entries[1..] != [] {
      WrittenEndsInNewline(entries[1..]);
      assert (line + rest)[|line + rest| - 1] == rest[|rest| - 1];
    } else {
      assert line + rest == line;
    }
  }
}
