/**
 Reading a log file back.  The reader knows the shape of a line by itself: 24 characters of
 time, the level in brackets, the message, a line break.  What the logger writes reads back
 as the entries it was given.
 */
module LogReader {
  import opened Wrappers
  import opened Logger
  import opened LogRotation

  datatype Record = Record(time: string, level: Level, message: string)

  /** One line, without its line break. */
  function ReadLine(line: string): Option<Record> {
    if |line| < 24 then None
    else
      var time, tail := line[..24], line[24..];
      if " [INFO] " <= tail then Some(Record(time, Info, tail[8..]))
      else if " [WARN] " <= tail then Some(Record(time, Warn, tail[8..]))
      else if " [ERROR] " <= tail then Some(Record(time, Error, tail[9..]))
      else None
  }

  /** Where the first line ends. */
  function LineEnd(text: string): (n: nat)
    ensures n <= |text| && forall i :: 0 <= i < n ==> text[i] != '\n'
    ensures n < |text| ==> text[n] == '\n'
  {
    if text == "" || text[0] == '\n' then 0 else 1 + LineEnd(text[1..])
  }

  /** All lines; None when one of them is not a line of a log, or is not finished. */
  function ReadLines(text: string): Option<seq<Record>>
    decreases |text|
  {
    if text == "" then Some([])
    else
      var n := LineEnd(text);
      if n == |text| then None
      else
        match ReadLine(text[..n])
        case None => None
        case Some(record) =>
          match ReadLines(text[n + 1..])
          case None => None
          case Some(records) => Some([record] + records)
  }

  /** What a reader of an entry's line should see. */
  function RecordOf(e: Entry, stamp: int -> string): Record {
    Record(stamp(e.timestamp), e.level, e.message)
  }

  function Records(entries: seq<Entry>, stamp: int -> string): (records: seq<Record>)
    ensures |records| == |entries|
  {
    seq(|entries|, i requires 0 <= i < |entries| => RecordOf(entries[i], stamp))
  }

  /** No time and no message runs over a line break. */
  predicate OneLine(entries: seq<Entry>, stamp: int -> string) {
    forall i :: 0 <= i < |entries| ==> '\n' !in stamp(entries[i].timestamp) && '\n' !in entries[i].message
  }

  /** A line carries time, level and message of its entry. */
  lemma LineReadsBack(e: Entry, stamp: int -> string)
    requires |stamp(e.timestamp)| == 24
    ensures Line(e, stamp) != "" && Line(e, stamp)[|Line(e, stamp)| - 1] == '\n'
    ensures ReadLine(Line(e, stamp)[..|Line(e, stamp)| - 1]) == Some(RecordOf(e, stamp))
  {
    var opening := match e.level
                   case Info => " [INFO] "
                   case Warn => " [WARN] "
                   case Error => " [ERROR] ";
    var tail := opening + e.message;
    var line := stamp(e.timestamp) + tail;
    assert Line(e, stamp) == line + "\n";
    assert line[..24] == stamp(e.timestamp) && line[24..] == tail;
    assert tail[|opening|..] == e.message && tail[2] == opening[2];
  }

  lemma LineHasOneBreak(e: Entry, stamp: int -> string)
    requires '\n' !in stamp(e.timestamp) && '\n' !in e.message
    ensures forall i :: 0 <= i < |Line(e, stamp)| - 1 ==> Line(e, stamp)[i] != '\n'
  {
    var level := " [" + LevelName(e.level) + "] ";
    assert Line(e, stamp) == stamp(e.timestamp) + level + e.message + "\n";
    assert '\n' !in LevelName(e.level);
  }

  lemma {:induction false} LineEndAt(text: string, n: nat)
    requires n < |text| && text[n] == '\n' && forall i :: 0 <= i < n ==> text[i] != '\n'
    ensures LineEnd(text) == n
  {
  }

  lemma FirstRecord(entries: seq<Entry>, stamp: int -> string)
    requires entries != []
    ensures Records(entries, stamp) == [RecordOf(entries[0], stamp)] + Records(entries[1..], stamp)
  {
  }

  lemma ReadFirst(line: string, rest: string, record: Record, records: seq<Record>)
    requires line != "" && line[|line| - 1] == '\n' && forall i :: 0 <= i < |line| - 1 ==> line[i] != '\n'
    requires ReadLine(line[..|line| - 1]) == Some(record) && ReadLines(rest) == Some(records)
    ensures ReadLines(line + rest) == Some([record] + records)
  {
    var text, n := line + rest, |line| - 1;
    LineEndAt(text, n);
    assert text[..n] == line[..n] && text[n + 1..] == rest;
  }

  /** What the logger writes for some entries reads back as those entries. */
  lemma {:induction false} LinesReadBack(entries: seq<Entry>, stamp: int -> string)
    requires Stamps(stamp) && OneLine(entries, stamp)
    ensures ReadLines(Lines(entries, stamp)) == Some(Records(entries, stamp))
  {
    if entries != [] {
      var line, rest := Line(entries[0], stamp), Lines(entries[1..], stamp);
      FirstLine(entries, stamp);
      LineReadsBack(entries[0], stamp);
      LineHasOneBreak(entries[0], stamp);
      LinesReadBack(entries[1..], stamp);
      ReadFirst(line, rest, RecordOf(entries[0], stamp), Records(entries[1..], stamp));
      FirstRecord(entries, stamp);
    }
  }

  lemma FirstLine(entries: seq<Entry>, stamp: int -> string)
    requires entries != []
    ensures Lines(entries, stamp) == Line(entries[0], stamp) + Lines(entries[1..], stamp)
  {
    assert entries == [entries[0]] + entries[1..];
    LinesConcat([entries[0]], entries[1..], stamp);
    LineAlone(entries[0], stamp);
  }

  lemma LineAlone(e: Entry, stamp: int -> string)
    ensures Lines([e], stamp) == Line(e, stamp)
  {
    assert [e][..0] == [] && Lines([], stamp) == "";
    assert Lines([e], stamp) == "" + Line(e, stamp);
  }
}
