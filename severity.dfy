/**
  The eight syslog severities of section 6.2.1 of RFC 5424, with the ranks index.js exports for them:
  0 is the most urgent (EMERGENCY), 7 the least (DEBUG).
 */
module Severity {
  import opened Wrappers

  datatype Level = Emergency | Alert | Critical | Error | Warning | Notice | Info | Debug

  /** The least urgent rank, DEBUG's. */
  const MAX_RANK: nat := 7

  /** The exported constant for each level. */
  function Rank(l: Level): (r: nat)
    ensures r <= MAX_RANK
  {
    match l
    case Emergency => 0
    case Alert => 1
    case Critical => 2
    case Error => 3
    case Warning => 4
    case Notice => 5
    case Info => 6
    case Debug => 7
  }

  /** The exported name of each level, which is also the token written into a log line. */
  function Name(l: Level): string {
    match l
    case Emergency => "EMERGENCY"
    case Alert => "ALERT"
    case Critical => "CRITICAL"
    case Error => "ERROR"
    case Warning => "WARNING"
    case Notice => "NOTICE"
    case Info => "INFO"
    case Debug => "DEBUG"
  }

  /** The level with a given rank; None outside 0..7. */
  function LevelOfRank(r: nat): (l: Option<Level>)
    ensures l.Some? <==> r <= MAX_RANK
    ensures l.Some? ==> Rank(l.value) == r
  {
    match r
    case 0 => Some(Emergency)
    case 1 => Some(Alert)
    case 2 => Some(Critical)
    case 3 => Some(Error)
    case 4 => Some(Warning)
    case 5 => Some(Notice)
    case 6 => Some(Info)
    case 7 => Some(Debug)
    case _ => None
  }

  /** The level whose exported name is exactly `s` (case-sensitive); None for any other string. */
  function FromName(s: string): (l: Option<Level>)
    ensures l.Some? ==> Name(l.value) == s
    ensures l.None? ==> forall k :: Name(k) != s
  {
    if s == "EMERGENCY" then Some(Emergency)
    else if s == "ALERT" then Some(Alert)
    else if s == "CRITICAL" then Some(Critical)
    else if s == "ERROR" then Some(Error)
    else if s == "WARNING" then Some(Warning)
    else if s == "NOTICE" then Some(Notice)
    else if s == "INFO" then Some(Info)
    else if s == "DEBUG" then Some(Debug)
    else None
  }

  /** The result of reading `exports[name]`: a rank, or Unknown where JavaScript gives `undefined`. */
  datatype RankLookup = Known(rank: nat) | Unknown

  function Lookup(name: string): (r: RankLookup)
    ensures r.Known? <==> exists l :: Name(l) == name
    ensures r.Known? ==> r.rank <= MAX_RANK && Name(LevelOfRank(r.rank).value) == name
  {
    match FromName(name)
    case Some(l) => Known(Rank(l))
    case None => Unknown
  }

  /** Every exported name is a non-empty run of capital letters. */
  lemma NamesAreCapitals(l: Level)
    ensures |Name(l)| > 0 && forall i :: 0 <= i < |Name(l)| ==> 'A' <= Name(l)[i] <= 'Z'
  {
  }

  /** name -> level -> name and level -> name -> level are both the identity. */
  lemma NameRoundTrip(l: Level)
    ensures FromName(Name(l)) == Some(l)
    ensures Lookup(Name(l)) == Known(Rank(l))
  {
  }

  /** Ranks are distinct and cover 0..7 without gaps. */
  lemma RanksContiguous(r: nat)
    ensures r <= MAX_RANK <==> exists l :: Rank(l) == r
  {
    if r <= MAX_RANK {
      assert Rank(LevelOfRank(r).value) == r;
    }
  }

  lemma RankInjective(a: Level, b: Level)
    ensures Rank(a) == Rank(b) <==> a == b
  {
  }

  /** rank -> level -> rank and level -> rank -> level are both the identity. */
  lemma RankRoundTrip(l: Level)
    ensures LevelOfRank(Rank(l)) == Some(l)
  {
  }
}
