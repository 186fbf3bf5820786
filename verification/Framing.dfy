/** The tab-separated entries and newline-terminated lines that reach the logger. */
module Framing {
  datatype Option<T> = None | Some(value: T)

  /** One row of the event log. */
  datatype Row = Row(event: string, meta: string, data: string)

  // ---- Splitting at tabs ----

  /** All pieces between tabs, as `bytes.Split` returns them. */
  function Split(s: string): (parts: seq<string>)
    ensures |parts| >= 1
  {
    if s == [] then [[]]
    else if s[0] == '\t' then [[]] + Split(s[1..])
    else
      var rest := Split(s[1..]);
      [[s[0]] + rest[0]] + rest[1..]
  }

  /** At most `n` pieces, the last one unsplit, as `bytes.SplitN` returns them. */
  function SplitN(s: string, n: nat): (parts: seq<string>)
    requires n >= 1
    ensures 1 <= |parts| <= n
  {
    if n == 1 then [s]
    else if s == [] then [[]]
    else if s[0] == '\t' then [[]] + SplitN(s[1..], n - 1)
    else
      var rest := SplitN(s[1..], n);
      [[s[0]] + rest[0]] + rest[1..]
  }

  function Parse(entry: string): Option<Row> {
    var split := Split(entry);
    if |split| == 3 then Some(Row(split[0], split[1], split[2])) else None
  }

  function ParseLine(line: string): Option<Row> {
    var split := SplitN(line, 3);
    if |split| == 3 then Some(Row(split[0], split[1], split[2])) else None
  }

  function Join(parts: seq<string>): string {
    if parts == [] then [] else if |parts| == 1 then parts[0] else parts[0] + "\t" + Join(parts[1..])
  }

  lemma {:induction false} SplitTabFree(s: string)
    requires '\t' !in s
    ensures Split(s) == [s]
  {
    if s != [] {
      SplitTabFree(s[1..]);
      assert [s[0]] + s[1..] == s;
    }
  }

  lemma {:induction false} SplitPrefix(s: string, rest: string)
    requires '\t' !in s
    ensures Split(s + "\t" + rest) == [s] + Split(rest)
  {
    var all := s + "\t" + rest;
    if s == [] {
      assert all[1..] == rest;
    } else {
      SplitPrefix(s[1..], rest);
      assert all[1..] == s[1..] + "\t" + rest;
      assert [s[0]] + s[1..] == s;
    }
  }

  lemma {:induction false} SplitNPrefix(s: string, rest: string, n: nat)
    requires '\t' !in s && n >= 2
    ensures SplitN(s + "\t" + rest, n) == [s] + SplitN(rest, n - 1)
  {
    var all := s + "\t" + rest;
    if s == [] {
      assert all[1..] == rest;
    } else {
      SplitNPrefix(s[1..], rest, n);
      assert all[1..] == s[1..] + "\t" + rest;
      assert [s[0]] + s[1..] == s;
    }
  }

  lemma {:induction false} JoinSplit(s: string)
    ensures Join(Split(s)) == s
    ensures forall k :: 0 <= k < |Split(s)| ==> '\t' !in Split(s)[k]
  {
    if s != [] {
      JoinSplit(s[1..]);
      var parts, rest := Split(s), Split(s[1..]);
      if s[0] == '\t' {
        assert parts[1..] == rest;
      } else {
        assert parts[1..] == rest[1..];
        forall k | 0 <= k < |parts|
          ensures '\t' !in parts[k]
        {
          assert k > 0 ==> parts[k] == rest[k];
        }
      }
    }
  }

  lemma {:induction false} JoinSplitN(s: string, n: nat)
    requires n >= 1
    ensures Join(SplitN(s, n)) == s
    ensures forall k :: 0 <= k < |SplitN(s, n)| && k < n - 1 ==> '\t' !in SplitN(s, n)[k]
  {
    if n > 1 && s != [] {
      var parts := SplitN(s, n);
      if s[0] == '\t' {
        JoinSplitN(s[1..], n - 1);
        var rest := SplitN(s[1..], n - 1);
        assert parts[1..] == rest;
        assert forall k :: 1 <= k < |parts| ==> parts[k] == rest[k - 1];
      } else {
        JoinSplitN(s[1..], n);
        var rest := SplitN(s[1..], n);
        assert parts[1..] == rest[1..];
        forall k | 0 <= k < |parts| && k < n - 1
          ensures '\t' !in parts[k]
        {
          assert k > 0 ==> parts[k] == rest[k];
        }
      }
    }
  }

  function Entry(row: Row): string {
    row.event + "\t" + row.meta + "\t" + row.data
  }

  lemma JoinThree(a: string, b: string, c: string)
    ensures Join([a, b, c]) == Entry(Row(a, b, c))
  {
    assert [a, b, c][1..] == [b, c] && [b, c][1..] == [c];
    assert Join([b, c]) == b + "\t" + c;
    assert Join([a, b, c]) == a + "\t" + (b + "\t" + c);
    assert a + "\t" + (b + "\t" + c) == a + "\t" + b + "\t" + c;
  }

  lemma EntryAsTwo(row: Row)
    ensures Entry(row) == row.event + "\t" + (row.meta + "\t" + row.data)
  {
  }

  lemma ParseOfEntry(row: Row)
    requires '\t' !in row.event && '\t' !in row.meta && '\t' !in row.data
    ensures Parse(Entry(row)) == Some(row)
  {
    EntryAsTwo(row);
    SplitPrefix(row.event, row.meta + "\t" + row.data);
    SplitPrefix(row.meta, row.data);
    SplitTabFree(row.data);
  }

  lemma EntryOfParse(entry: string)
    requires |Split(entry)| == 3
    ensures
      var split := Split(entry);
      && entry == Entry(Row(split[0], split[1], split[2]))
      && '\t' !in split[0] && '\t' !in split[1] && '\t' !in split[2]
  {
    var split := Split(entry);
    JoinSplit(entry);
    assert split == [split[0], split[1], split[2]];
    JoinThree(split[0], split[1], split[2]);
  }

  /** `parse` returns exactly the three tab-free fields of which the entry is made. */
  lemma ParseIff(entry: string, row: Row)
    ensures Parse(entry) == Some(row)
       <==> entry == Entry(row) && '\t' !in row.event && '\t' !in row.meta && '\t' !in row.data
  {
    if |Split(entry)| == 3 {
      EntryOfParse(entry);
    }
    if entry == Entry(row) && '\t' !in row.event && '\t' !in row.meta && '\t' !in row.data {
      ParseOfEntry(row);
    }
  }

  lemma ParseLineOfEntry(row: Row)
    requires '\t' !in row.event && '\t' !in row.meta
    ensures ParseLine(Entry(row)) == Some(row)
  {
    EntryAsTwo(row);
    SplitNPrefix(row.event, row.meta + "\t" + row.data, 3);
    SplitNPrefix(row.meta, row.data, 2);
  }

  lemma EntryOfParseLine(line: string)
    requires |SplitN(line, 3)| == 3
    ensures
      var split := SplitN(line, 3);
      line == Entry(Row(split[0], split[1], split[2])) && '\t' !in split[0] && '\t' !in split[1]
  {
    var split := SplitN(line, 3);
    JoinSplitN(line, 3);
    assert split == [split[0], split[1], split[2]];
    JoinThree(split[0], split[1], split[2]);
  }

  /** `parseLine` leaves the tabs of the last field alone. */
  lemma ParseLineIff(line: string, row: Row)
    ensures ParseLine(line) == Some(row) <==> line == Entry(row) && '\t' !in row.event && '\t' !in row.meta
  {
    if |SplitN(line, 3)| == 3 {
      EntryOfParseLine(line);
    }
    if line == Entry(row) && '\t' !in row.event && '\t' !in row.meta {
      ParseLineOfEntry(row);
    }
  }

  // ---- Lines ----

  /** The complete lines of a stream, each with its newline, as `ReadBytes` returns them. */
  function Lines(stream: string): seq<string> {
    LinesFrom("", stream)
  }

  function LinesFrom(current: string, stream: string): seq<string>
    decreases |stream|
  {
    if stream == [] then []
    else if stream[0] == '\n' then [current + "\n"] + LinesFrom("", stream[1..])
    else LinesFrom(current + [stream[0]], stream[1..])
  }

  function Newlines(s: string): nat {
    if s == [] then 0 else (if s[0] == '\n' then 1 else 0) + Newlines(s[1..])
  }

  lemma {:induction false} LinesCount(current: string, stream: string)
    ensures |LinesFrom(current, stream)| == Newlines(stream)
    decreases |stream|
  {
    if stream != [] {
      if stream[0] == '\n' {
        LinesCount("", stream[1..]);
      } else {
        LinesCount(current + [stream[0]], stream[1..]);
      }
    }
  }

  lemma {:induction false} LinesOfFirst(current: string, line: string, rest: string)
    requires '\n' !in line
    ensures LinesFrom(current, line + "\n" + rest) == [current + line + "\n"] + Lines(rest)
    decreases |line|
  {
    var stream := line + "\n" + rest;
    if line == [] {
      assert stream[1..] == rest;
      assert current + line == current;
    } else {
      assert stream[1..] == line[1..] + "\n" + rest;
      LinesOfFirst(current + [line[0]], line[1..], rest);
      assert current + [line[0]] + line[1..] == current + line;
    }
  }

  lemma {:induction false} NewlinesAppend(a: string, b: string)
    ensures Newlines(a + b) == Newlines(a) + Newlines(b)
  {
    if a == [] {
      assert a + b == b;
    } else {
      NewlinesAppend(a[1..], b);
      assert (a + b)[1..] == a[1..] + b;
    }
  }

  lemma {:induction false} NewlineFree(s: string)
    ensures Newlines(s) == 0 <==> '\n' !in s
  {
    if s != [] {
      NewlineFree(s[1..]);
    }
  }

  // ---- From a client to the event log ----

  /** What a client writes for one entry: the message kind, the sender and the entry itself. */
  function LogLine(row: Row): string {
    Entry(Row("log", "test_client", Entry(row))) + "\n"
  }

  function Lower(s: string): (lower: string)
    ensures |lower| == |s|
  {
    seq(|s|, i requires 0 <= i < |s| =>
      if 'A' <= s[i] <= 'Z' then (s[i] as int - 'A' as int + 'a' as int) as char else s[i])
  }

  predicate IsLog(kind: string) {
    Lower(kind) == "log"
  }

  /** The kind of a message is compared without regard to case. */
  lemma IsLogInAnyCase(kind: string)
    ensures IsLog(kind) <==>
      |kind| == 3 && kind[0] in {'l', 'L'} && kind[1] in {'o', 'O'} && kind[2] in {'g', 'G'}
  {
    if |kind| == 3 {
      assert Lower(kind) == [Lower(kind)[0], Lower(kind)[1], Lower(kind)[2]];
    }
  }

  /** The reader hands the third field of a `log` line to `parse`. */
  function Decode(line: string): Option<Row> {
    var parsed := ParseLine(line);
    if parsed.Some? && IsLog(parsed.value.event) then Parse(parsed.value.data) else None
  }

  function DecodeAll(lines: seq<string>): seq<Option<Row>> {
    seq(|lines|, i requires 0 <= i < |lines| => Decode(lines[i]))
  }

  predicate TabFree(row: Row) {
    '\t' !in row.event && '\t' !in row.meta && '\t' !in row.data
  }

  predicate OneLine(row: Row) {
    '\n' !in row.event && '\n' !in row.meta && '\n' !in row.data
  }

  function Stored(row: Row): Row {
    row.(data := row.data + "\n")
  }

  lemma DecodeLogLine(row: Row)
    ensures Decode(LogLine(row)) == Some(Stored(row)) <==> TabFree(row)
  {
    var data := Entry(row) + "\n";
    assert LogLine(row) == Entry(Row("log", "test_client", data));
    ParseLineIff(LogLine(row), Row("log", "test_client", data));
    assert data == Entry(Stored(row));
    ParseIff(data, Stored(row));
    assert '\t' in Stored(row).data <==> '\t' in row.data;
  }

  function Written(rows: seq<Row>): string {
    if rows == [] then "" else LogLine(rows[0]) + Written(rows[1..])
  }

  function StoredAll(rows: seq<Row>): seq<Option<Row>> {
    seq(|rows|, i requires 0 <= i < |rows| => Some(Stored(rows[i])))
  }

  lemma EntryNewlines(row: Row)
    ensures Newlines(Entry(row)) == Newlines(row.event) + Newlines(row.meta) + Newlines(row.data)
  {
    var a, b := row.event + "\t", row.event + "\t" + row.meta;
    NewlinesAppend(row.event, "\t");
    NewlinesAppend(a, row.meta);
    NewlinesAppend(b, "\t");
    NewlinesAppend(b + "\t", row.data);
    assert Newlines("\t") == 0;
  }

  lemma LogLineCount(row: Row)
    ensures Newlines(LogLine(row)) == Newlines(Entry(row)) + 1
  {
    EntryNewlines(Row("log", "test_client", Entry(row)));
    NewlinesAppend(Entry(Row("log", "test_client", Entry(row))), "\n");
    NewlineFree("log");
    NewlineFree("test_client");
    assert Newlines("\n") == 1;
  }

  lemma LogLineNewlines(row: Row)
    ensures Newlines(LogLine(row)) == 1 <==> OneLine(row)
  {
    LogLineCount(row);
    EntryNewlines(row);
    NewlineFree(row.event);
    NewlineFree(row.meta);
    NewlineFree(row.data);
  }

  /** One entry survives the pipe exactly when its fields contain neither tabs nor newlines. */
  lemma EntryRoundTripIff(row: Row)
    ensures DecodeAll(Lines(LogLine(row))) == [Some(Stored(row))] <==> TabFree(row) && OneLine(row)
  {
    LogLineNewlines(row);
    LinesCount("", LogLine(row));
    DecodeLogLine(row);
    if OneLine(row) {
      var line := Entry(Row("log", "test_client", Entry(row)));
      assert '\n' !in line;
      LinesOfFirst("", line, "");
      assert LogLine(row) == line + "\n" + "";
      assert "" + line + "\n" == LogLine(row) && Lines("") == [];
      assert Lines(LogLine(row)) == [LogLine(row)];
      assert DecodeAll([LogLine(row)]) == [Decode(LogLine(row))];
    }
  }

  lemma LinesOfWritten(rows: seq<Row>)
    requires rows != [] && OneLine(rows[0])
    ensures Lines(Written(rows)) == [LogLine(rows[0])] + Lines(Written(rows[1..]))
  {
    var line := Entry(Row("log", "test_client", Entry(rows[0])));
    assert '\n' !in line;
    LinesOfFirst("", line, Written(rows[1..]));
    assert Written(rows) == line + "\n" + Written(rows[1..]);
    assert "" + line + "\n" == LogLine(rows[0]);
  }

  lemma DecodeAllCons(line: string, lines: seq<string>)
    ensures DecodeAll([line] + lines) == [Decode(line)] + DecodeAll(lines)
  {
  }

  /** Any number of entries written to the pipe are parsed back, in order, the newline kept with the data. */
  lemma {:induction false} StreamRoundTrip(rows: seq<Row>)
    requires forall i :: 0 <= i < |rows| ==> TabFree(rows[i]) && OneLine(rows[i])
    ensures DecodeAll(Lines(Written(rows))) == StoredAll(rows)
  {
    if rows != [] {
      StreamRoundTrip(rows[1..]);
      DecodeLogLine(rows[0]);
      LinesOfWritten(rows);
      DecodeAllCons(LogLine(rows[0]), Lines(Written(rows[1..])));
      assert StoredAll(rows) == [Some(Stored(rows[0]))] + StoredAll(rows[1..]);
    }
  }
}
