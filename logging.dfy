/**
  The logger object of index.js: a threshold resolved from a level name, an output sink that
  `log` and the eight per-severity methods append lines to, and the reader state of `read`
  (the text buffer of the `data` handler and the events it reports).
 */
module Logging {
  import opened Wrappers
  import opened Text
  import opened Severity
  import opened LineFormat
  import Reader

  /**
    The constructor's level resolution as documented (index.js:6-7): upper-case the name, look it
    up, and fall back to DEBUG when it names no severity. `ResolveAsWritten` is the code's own
    fallback, which differs; the logger uses this one.
   */
  function ResolveThreshold(level: string): (t: nat)
    ensures t <= MAX_RANK
  {
    match Lookup(ToUpper(level))
    case Known(r) => r
    case Unknown => Rank(Debug)
  }

  /**
    The level resolution as index.js:17 is written: the fallback reads `this.DEBUG` on the new
    instance, whose prototype has no `DEBUG`, so a name that is no level's leaves the level
    `undefined` (None).
   */
  function ResolveAsWritten(level: string): (t: Option<nat>)
    ensures t.Some? <==> exists l :: Name(l) == ToUpper(level)
    ensures t.Some? ==> t.value == ResolveThreshold(level)
  {
    match Lookup(ToUpper(level))
    case Known(r) => Some(r)
    case Unknown => None
  }

  /** `exports[levelStr] <= this.level` against a level that may be `undefined`: that compares as false. */
  predicate AdmitsAsWritten(level: Option<nat>, levelStr: string) {
    level.Some? && Admits(level.value, levelStr)
  }

  /** As written, a logger built with an unknown level name writes nothing at all. */
  lemma UnknownLevelSilentAsWritten(level: string, levelStr: string)
    requires forall l :: Name(l) != ToUpper(level)
    ensures ResolveAsWritten(level) == None
    ensures !AdmitsAsWritten(ResolveAsWritten(level), levelStr)
  {
  }

  /**
    The discrepancy on a concrete name: as written, `new Log('verbose')` drops even an EMERGENCY
    message, while the documented DEBUG default writes a DEBUG one.
   */
  lemma VerboseDiffers()
    ensures ResolveAsWritten("verbose") == None
    ensures !AdmitsAsWritten(ResolveAsWritten("verbose"), Name(Emergency))
    ensures ResolveThreshold("verbose") == Rank(Debug)
    ensures Admits(ResolveThreshold("verbose"), Name(Debug))
  {
    assert ToUpper("verbose") == "VERBOSE";
    assert FromName("VERBOSE") == None;
    AdmitsLevel(Rank(Debug), Debug);
  }

  /** The comparison `exports[levelStr] <= this.level`; a name that is no level's compares as false. */
  predicate Admits(threshold: nat, levelStr: string): (b: bool)
    ensures b <==> exists l :: Name(l) == levelStr && Rank(l) <= threshold
  {
    match Lookup(levelStr)
    case Known(r) =>
      var l := LevelOfRank(r).value;
      NameRoundTrip(l);
      r <= threshold
    case Unknown => false
  }

  /** Level names are already upper case. */
  lemma NameIsUpper(l: Level)
    ensures ToUpper(Name(l)) == Name(l)
  {
    var n := Name(l);
    forall i | 0 <= i < |n|
      ensures !IsLower(n[i])
    {
      match l
      case Emergency =>
      case Alert =>
      case Critical =>
      case Error =>
      case Warning =>
      case Notice =>
      case Info =>
      case Debug =>
    }
  }

  /** Any spelling that upper-cases to a level's name selects that level's rank. */
  lemma ResolveByName(level: string, l: Level)
    requires ToUpper(level) == Name(l)
    ensures ResolveThreshold(level) == Rank(l)
  {
    NameRoundTrip(l);
  }

  /** A name that upper-cases to no level's name falls back to DEBUG. */
  lemma ResolveUnknown(level: string)
    requires forall l :: Name(l) != ToUpper(level)
    ensures ResolveThreshold(level) == Rank(Debug)
  {
  }

  /** Resolution ignores case: the name and its upper-cased form select the same threshold. */
  lemma ResolveCaseInsensitive(level: string)
    ensures ResolveThreshold(ToUpper(level)) == ResolveThreshold(level)
  {
    ToUpperIdempotent(level);
  }

  /** A known level passes the threshold exactly when its rank is at most the threshold. */
  lemma AdmitsLevel(threshold: nat, l: Level)
    ensures Admits(threshold, Name(l)) <==> Rank(l) <= threshold
  {
    NameRoundTrip(l);
  }

  /** A name that is no level's is never written, whatever the threshold. */
  lemma UnknownNeverAdmitted(threshold: nat, levelStr: string)
    requires forall l :: Name(l) != levelStr
    ensures !Admits(threshold, levelStr)
  {
  }

  /**
    A logger built with level `c` writes a message of level `l` exactly when `l` is at least as
    urgent as `c`.
   */
  lemma ThresholdFilter(c: Level, l: Level)
    ensures Admits(ResolveThreshold(Name(c)), Name(l)) <==> Rank(l) <= Rank(c)
  {
    NameIsUpper(c);
    ResolveByName(Name(c), c);
    AdmitsLevel(Rank(c), l);
  }

  class Log {
    /** The most verbose rank written. */
    var threshold: nat
    /** The lines written so far, in order. */
    var sink: seq<string>
    /** The `data` handler's buffer. */
    var buf: string
    /** The events reported so far, in order. */
    var events: seq<Reader.Event>

    /** The threshold is a rank, and between chunks the buffer never ends in a newline. */
    ghost predicate Valid()
      reads this
    {
      threshold <= MAX_RANK && !EndsInNewline(buf)
    }

    constructor (level: string)
      ensures Valid()
      ensures threshold == ResolveThreshold(level)
      ensures sink == [] && buf == "" && events == []
    {
      threshold := ResolveThreshold(level);
      sink := [];
      buf := "";
      events := [];
    }

    /** `log`: write one line when the level passes the threshold, otherwise nothing. */
    method Log(levelStr: string, date: string, msg: string)
      modifies this`sink
      ensures sink == if Admits(threshold, levelStr)
        then old(sink) + [FormatLine(date, levelStr, msg)]
        else old(sink)
    {
      var admitted := Admits(threshold, levelStr);
      if admitted {
        sink := sink + [FormatLine(date, levelStr, msg)];
      }
    }

    /** EMERGENCY has rank 0 and is always written. */
    method Emergency(date: string, msg: string)
      modifies this`sink
      ensures sink == old(sink) + [FormatLine(date, Name(Severity.Emergency), msg)]
    {
      AdmitsLevel(threshold, Severity.Emergency);
      Log("EMERGENCY", date, msg);
    }

    method Alert(date: string, msg: string)
      modifies this`sink
      ensures sink == if 1 <= threshold
        then old(sink) + [FormatLine(date, Name(Severity.Alert), msg)]
        else old(sink)
    {
      AdmitsLevel(threshold, Severity.Alert);
      Log("ALERT", date, msg);
    }

    method Critical(date: string, msg: string)
      modifies this`sink
      ensures sink == if 2 <= threshold
        then old(sink) + [FormatLine(date, Name(Severity.Critical), msg)]
        else old(sink)
    {
      AdmitsLevel(threshold, Severity.Critical);
      Log("CRITICAL", date, msg);
    }

    method Error(date: string, msg: string)
      modifies this`sink
      ensures sink == if 3 <= threshold
        then old(sink) + [FormatLine(date, Name(Severity.Error), msg)]
        else old(sink)
    {
      AdmitsLevel(threshold, Severity.Error);
      Log("ERROR", date, msg);
    }

    method Warning(date: string, msg: string)
      modifies this`sink
      ensures sink == if 4 <= threshold
        then old(sink) + [FormatLine(date, Name(Severity.Warning), msg)]
        else old(sink)
    {
      AdmitsLevel(threshold, Severity.Warning);
      Log("WARNING", date, msg);
    }

    method Notice(date: string, msg: string)
      modifies this`sink
      ensures sink == if 5 <= threshold
        then old(sink) + [FormatLine(date, Name(Severity.Notice), msg)]
        else old(sink)
    {
      AdmitsLevel(threshold, Severity.Notice);
      Log("NOTICE", date, msg);
    }

    method Info(date: string, msg: string)
      modifies this`sink
      ensures sink == if 6 <= threshold
        then old(sink) + [FormatLine(date, Name(Severity.Info), msg)]
        else old(sink)
    {
      AdmitsLevel(threshold, Severity.Info);
      Log("INFO", date, msg);
    }

    /** DEBUG has the largest rank and is written only when the threshold is DEBUG itself. */
    method Debug(date: string, msg: string)
      modifies this`sink
      ensures sink == if 7 <= threshold
        then old(sink) + [FormatLine(date, Name(Severity.Debug), msg)]
        else old(sink)
    {
      AdmitsLevel(threshold, Severity.Debug);
      Log("DEBUG", date, msg);
    }

    /**
      The `data` handler: append the chunk; unless the buffer now ends in a newline, stop there;
      otherwise report the lines of the whole buffer and clear it.
     */
    method Feed(chunk: string)
      requires Valid()
      modifies this`buf, this`events
      ensures Valid()
      ensures var f := Reader.Step(old(buf), chunk); buf == f.buf && events == old(events) + f.emitted
    {
      buf := buf + chunk;
      if !EndsInNewline(buf) {
        assert events + [] == events;
        return;
      }
      EmitLines(buf);
      buf := "";
    }

    /**
      The `forEach` over `buf.split('\n')`: skip empty pieces, report each piece that matches the
      line grammar, drop the others.
     */
    method EmitLines(text: string)
      modifies this`events
      ensures events == old(events) + Reader.Flush(text)
    {
      var pieces := Split(text);
      var i := 0;
      while i < |pieces|
        invariant 0 <= i <= |pieces|
        invariant events == old(events) + Reader.LineEvents(pieces[..i])
      {
        var line := pieces[i];
        ghost var done := Reader.LineEvents(pieces[..i]);
        assert pieces[..i + 1][..i] == pieces[..i];
        assert Reader.LineEvents(pieces[..i + 1]) == done + Reader.PieceEvents(line);
        if |line| > 0 {
          match ParseLine(line)
          case Some(r) =>
            events := events + [Reader.Line(r)];
          case None =>
        }
        AppendAssoc(old(events), done, Reader.PieceEvents(line));
        i := i + 1;
      }
      assert pieces[..i] == pieces;
      assert events == old(events) + Reader.LineEvents(pieces);
    }

    /** The `end` handler: report the end of the input once. */
    method End()
      modifies this`events
      ensures events == old(events) + [Reader.End]
    {
      events := events + [Reader.End];
    }
  }
}
