/** The trace as the viewer holds it, with its string caches; the flat table and the per-line table. */
module Profile {
  import opened Counters
  import opened Symbols
  import opened ProfileModel

  // ----- counters

  /** These eight 32-bit counters show the sums under p. */
  ghost predicate Shows<K>(stats: seq<nat>, paths: seq<seq<K>>, samples: seq<Sample>, p: seq<K>)
    requires |paths| <= |samples|
  {
    |stats| == COUNTERS && forall c :: 0 <= c < COUNTERS ==> stats[c] == SumUnder(paths, samples, p, c) % WORD_RANGE
  }

  /** One more sample: counters under whose path it falls take it up, the others still show their sums. */
  lemma ShowsNext<K>(stats: seq<nat>, more: seq<nat>, paths: seq<seq<K>>, q: seq<K>, samples: seq<Sample>, p: seq<K>)
    requires |paths| < |samples| && Shows(stats, paths, samples, p)
    requires |samples[|paths|].stats| == COUNTERS && |more| == COUNTERS
    requires forall c :: 0 <= c < COUNTERS ==> more[c] == (stats[c] + samples[|paths|].stats[c]) % WORD_RANGE
    ensures Shows(if p <= q then more else stats, paths + [q], samples, p)
  {
    hide SumUnder;
    forall c | 0 <= c < COUNTERS
      ensures (if p <= q then more else stats)[c] == SumUnder(paths + [q], samples, p, c) % WORD_RANGE
    {
      SumNext(paths, q, samples, p, c);
      WrapOnce(SumUnder(paths, samples, p, c), samples[|paths|].stats[c]);
    }
  }

  lemma SumNext<K>(paths: seq<seq<K>>, q: seq<K>, samples: seq<Sample>, p: seq<K>, c: nat)
    requires |paths| < |samples|
    ensures SumUnder(paths + [q], samples, p, c)
         == SumUnder(paths, samples, p, c) + if p <= q then Counter(samples[|paths|], c) else 0
  {
  }

  lemma WrapOnce(a: nat, b: nat)
    ensures (a % WORD_RANGE + b) % WORD_RANGE == (a + b) % WORD_RANGE
  {
  }

  lemma ShowsNothing<K>(paths: seq<seq<K>>, samples: seq<Sample>, p: seq<K>)
    requires |paths| <= |samples| && forall i :: 0 <= i < |paths| ==> !(p <= paths[i])
    ensures Shows(Blank(), paths, samples, p)
  {
    forall c | 0 <= c < COUNTERS
      ensures SumUnder(paths, samples, p, c) == 0
    {
      NothingUnder(paths, samples, p, c);
    }
  }

  lemma {:induction false} NothingUnder<K>(paths: seq<seq<K>>, samples: seq<Sample>, p: seq<K>, c: nat)
    requires |paths| <= |samples| && forall i :: 0 <= i < |paths| ==> !(p <= paths[i])
    ensures SumUnder(paths, samples, p, c) == 0
    decreases |paths|
  {
    if paths != [] {
      NothingUnder(paths[..|paths| - 1], samples, p, c);
    }
  }

  /** Adds a sample's counters; each wraps at 32 bits. */
  method Accumulate(stats: seq<nat>, more: seq<nat>) returns (r: seq<nat>)
    requires |stats| == |more| == COUNTERS
    ensures |r| == COUNTERS && forall c :: 0 <= c < COUNTERS ==> r[c] == (stats[c] + more[c]) % WORD_RANGE
  {
    r := stats;
    for k := 0 to COUNTERS
      invariant |r| == COUNTERS
      invariant forall c :: 0 <= c < k ==> r[c] == (stats[c] + more[c]) % WORD_RANGE
      invariant forall c :: k <= c < COUNTERS ==> r[c] == stats[c]
    {
      r := r[k := (r[k] + more[k]) % WORD_RANGE];
    }
  }

  // ----- tables of counters, one entry for each next step below p

  ghost predicate Entry<K>(stats: seq<nat>, paths: seq<seq<K>>, samples: seq<Sample>, p: seq<K>)
    requires |paths| <= |samples|
  {
    Shows(stats, paths, samples, p) && exists j :: 0 <= j < |paths| && p <= paths[j]
  }

  /** The table has exactly the steps that paths take from p, each with its sums. */
  ghost predicate Booked<K(!new)>(table: map<K, seq<nat>>, paths: seq<seq<K>>, samples: seq<Sample>, p: seq<K>)
    requires |paths| <= |samples|
  {
    && (forall k :: k in table ==> Entry(table[k], paths, samples, p + [k]))
    && (forall j :: 0 <= j < |paths| && p < paths[j] ==> paths[j][|p|] in table)
  }

  lemma EntryTakesUp<K>(stats: seq<nat>, more: seq<nat>, paths: seq<seq<K>>, q: seq<K>, samples: seq<Sample>, p: seq<K>)
    requires |paths| < |samples| && |samples[|paths|].stats| == |more| == COUNTERS && p <= q
    requires Shows(stats, paths, samples, p)
    requires forall c :: 0 <= c < COUNTERS ==> more[c] == (stats[c] + samples[|paths|].stats[c]) % WORD_RANGE
    ensures Entry(more, paths + [q], samples, p)
  {
    ShowsNext(stats, more, paths, q, samples, p);
    hide Shows;
    assert (paths + [q])[|paths|] == q;
  }

  lemma EntryStays<K>(stats: seq<nat>, paths: seq<seq<K>>, q: seq<K>, samples: seq<Sample>, p: seq<K>)
    requires |paths| < |samples| && |samples[|paths|].stats| == COUNTERS && !(p <= q)
    requires Entry(stats, paths, samples, p)
    ensures Entry(stats, paths + [q], samples, p)
  {
    var other := seq(COUNTERS, c requires 0 <= c < COUNTERS => (stats[c] + samples[|paths|].stats[c]) % WORD_RANGE);
    ShowsNext(stats, other, paths, q, samples, p);
    hide Shows;
    var j :| 0 <= j < |paths| && p <= paths[j];
    assert (paths + [q])[j] == paths[j];
  }

  /** A sample whose path does not go on from p. */
  lemma BookedSkip<K(!new)>(table: map<K, seq<nat>>, paths: seq<seq<K>>, q: seq<K>, samples: seq<Sample>, p: seq<K>)
    requires |paths| < |samples| && |samples[|paths|].stats| == COUNTERS && !(p < q)
    requires Booked(table, paths, samples, p)
    ensures Booked(table, paths + [q], samples, p)
  {
    hide Entry;
    forall k | k in table
      ensures Entry(table[k], paths + [q], samples, p + [k])
    {
      EntryStays(table[k], paths, q, samples, p + [k]);
    }
  }

  /** A sample whose path takes step k from p: its entry takes it up, or starts with it. */
  lemma BookedNext<K(!new)>(table: map<K, seq<nat>>, k: K, more: seq<nat>, paths: seq<seq<K>>, q: seq<K>,
                            samples: seq<Sample>, p: seq<K>)
    requires |paths| < |samples| && |samples[|paths|].stats| == |more| == COUNTERS && p + [k] <= q
    requires Booked(table, paths, samples, p)
    requires var stats := if k in table then table[k] else Blank();
      |stats| == COUNTERS && forall c :: 0 <= c < COUNTERS ==>
        more[c] == (stats[c] + samples[|paths|].stats[c]) % WORD_RANGE
    ensures Booked(table[k := more], paths + [q], samples, p)
  {
    assert p < q && q[|p|] == k;
    if k in table {
      assert Entry(table[k], paths, samples, p + [k]);
      EntryTakesUp(table[k], more, paths, q, samples, p + [k]);
    } else {
      ShowsNothing(paths, samples, p + [k]);
      EntryTakesUp(Blank(), more, paths, q, samples, p + [k]);
    }
    hide Entry;
    forall j | j in table && j != k
      ensures Entry(table[j], paths + [q], samples, p + [j])
    {
      assert q[|p|] != j;
      EntryStays(table[j], paths, q, samples, p + [j]);
    }
  }

  // ----- the lines of a symbol

  datatype LineData = LineData(lineNumber: nat, stats: seq<nat>)

  datatype FileInfo = FileInfo(fileName: string, firstLine: int, lastLine: int, samples: seq<LineData>)

  predicate Ascending(lines: seq<LineData>) {
    forall i, j :: 0 <= i < j < |lines| ==> lines[i].lineNumber < lines[j].lineNumber
  }

  function InsertLine(lines: seq<LineData>, x: LineData): seq<LineData> {
    if lines == [] || lines[|lines| - 1].lineNumber <= x.lineNumber then lines + [x]
    else InsertLine(lines[..|lines| - 1], x) + [lines[|lines| - 1]]
  }

  lemma {:induction false} InsertLineAscends(lines: seq<LineData>, x: LineData)
    requires Ascending(lines) && forall i :: 0 <= i < |lines| ==> lines[i].lineNumber != x.lineNumber
    ensures Ascending(InsertLine(lines, x))
    ensures forall y :: y in InsertLine(lines, x) <==> y == x || y in lines
  {
    if !(lines == [] || lines[|lines| - 1].lineNumber <= x.lineNumber) {
      var init, last := lines[..|lines| - 1], lines[|lines| - 1];
      InsertLineAscends(init, x);
      assert lines == init + [last];
      var r := InsertLine(init, x);
      forall i | 0 <= i < |r|
        ensures r[i].lineNumber < last.lineNumber
      {
        assert r[i] in r;
      }
    }
  }

  /** The entries of a line table in the order of their lines. */
  method SortLines(table: map<nat, LineData>) returns (lines: seq<LineData>)
    requires forall l :: l in table ==> table[l].lineNumber == l
    ensures Ascending(lines)
    ensures forall x :: x in lines <==> x.lineNumber in table && table[x.lineNumber] == x
  {
    lines := [];
    var rest := table;
    while rest != map[]
      invariant Ascending(lines) && rest.Keys <= table.Keys
      invariant forall l :: l in rest ==> rest[l] == table[l]
      invariant forall x :: x in lines <==> x.lineNumber in table && x.lineNumber !in rest && table[x.lineNumber] == x
      decreases |rest|
    {
      var l :| l in rest;
      InsertLineAscends(lines, rest[l]);
      lines := InsertLine(lines, rest[l]);
      rest := rest - {l};
    }
  }

  /** The collected lines are the entries of a table of counters. */
  ghost predicate Matches(lines: map<nat, LineData>, table: map<LineKey, seq<nat>>) {
    && (forall l :: l in lines ==> lines[l].lineNumber == l && Line(l) in table && table[Line(l)] == lines[l].stats)
    && (forall k :: k in table ==> k.Line? && k.line in lines)
  }

  /** The least and the greatest line, or the extreme numbers if there is none. */
  ghost predicate Spans(lines: set<nat>, minLine: int, maxLine: int) {
    && (forall l :: l in lines ==> minLine <= l <= maxLine)
    && if lines == {} then minLine == INT_MAX && maxLine == INT_MIN
       else minLine >= 0 && maxLine >= 0 && minLine in lines && maxLine in lines
  }

  /** Each line of the symbol that a sample falls on, in order, with its sums. */
  ghost predicate ListsLines(lines: seq<LineData>, paths: seq<seq<LineKey>>, samples: seq<Sample>, symbol: string)
    requires |paths| <= |samples|
  {
    && Ascending(lines)
    && (forall i :: 0 <= i < |lines| ==>
          Entry(lines[i].stats, paths, samples, [Symbol(symbol), Line(lines[i].lineNumber)]))
    && (forall j :: 0 <= j < |paths| && [Symbol(symbol)] < paths[j] ==> HasLine(lines, paths[j][1]))
  }

  ghost predicate HasLine(lines: seq<LineData>, k: LineKey) {
    k.Line? && exists i :: 0 <= i < |lines| && lines[i].lineNumber == k.line
  }

  lemma SortedLinesList(lines: seq<LineData>, collected: map<nat, LineData>, table: map<LineKey, seq<nat>>,
                        paths: seq<seq<LineKey>>, samples: seq<Sample>, symbol: string)
    requires |paths| <= |samples| && Matches(collected, table) && Booked(table, paths, samples, [Symbol(symbol)])
    requires Ascending(lines)
    requires forall x :: x in lines <==> x.lineNumber in collected && collected[x.lineNumber] == x
    ensures ListsLines(lines, paths, samples, symbol)
  {
    hide Entry;
    forall i | 0 <= i < |lines|
      ensures Entry(lines[i].stats, paths, samples, [Symbol(symbol), Line(lines[i].lineNumber)])
    {
      assert lines[i] in lines;
      assert [Symbol(symbol)] + [Line(lines[i].lineNumber)] == [Symbol(symbol), Line(lines[i].lineNumber)];
      assert Line(lines[i].lineNumber) in table;
    }
    forall j | 0 <= j < |paths| && [Symbol(symbol)] < paths[j]
      ensures HasLine(lines, paths[j][1])
    {
      var k := paths[j][1];
      assert k in table;
      assert collected[k.line] in lines;
    }
  }

  lemma SpanOfSorted(lines: seq<LineData>, collected: map<nat, LineData>, minLine: int, maxLine: int)
    requires Spans(collected.Keys, minLine, maxLine) && Ascending(lines)
    requires forall l :: l in collected ==> collected[l].lineNumber == l
    requires forall x :: x in lines <==> x.lineNumber in collected && collected[x.lineNumber] == x
    ensures minLine == if lines == [] then INT_MAX else lines[0].lineNumber
    ensures maxLine == if lines == [] then INT_MIN else lines[|lines| - 1].lineNumber
  {
    assert forall l :: l in collected ==> collected[l] in lines;
    if lines == [] {
      assert collected.Keys == {};
    } else {
      assert lines[0] in lines && lines[|lines| - 1] in lines;
    }
  }

  /** The file of the first sample in the symbol that has one. */
  function FirstFile(t: Trace, symbol: string, n: nat): string
    requires n <= |t.samples|
  {
    if n == 0 then ""
    else
      var file := FirstFile(t, symbol, n - 1);
      match Lookup(t.symbols, t.samples[n - 1].rip)
      case None => file
      case Some(sym) =>
        if file == "" && StringAt(t.text, sym.symbolName) == symbol then StringAt(t.text, sym.fileName) else file
  }

  /** The sample falls into the symbol, whose record names this file. */
  ghost predicate FileIn(t: Trace, symbol: string, i: nat, file: string)
    requires i < |t.samples|
  {
    t.SymbolName(t.samples[i].rip) == Some(symbol) && t.FileName(t.samples[i].rip) == file
  }

  /** A file name is found exactly if some sample in the symbol has one, and it is that of the first. */
  lemma {:induction false} FirstFileIsFirst(t: Trace, symbol: string, n: nat)
    requires n <= |t.samples|
    ensures var file := FirstFile(t, symbol, n);
      if file == "" then forall i, f :: 0 <= i < n && FileIn(t, symbol, i, f) ==> f == ""
      else exists i :: 0 <= i < n && FileIn(t, symbol, i, file)
                       && forall j, f :: 0 <= j < i && FileIn(t, symbol, j, f) ==> f == ""
  {
    if n > 0 {
      FirstFileIsFirst(t, symbol, n - 1);
      hide Lookup, StringAt;
      var before, file := FirstFile(t, symbol, n - 1), FirstFile(t, symbol, n);
      if before == "" && file != "" {
        assert FileIn(t, symbol, n - 1, file);
      }
    }
  }

  // ----- the loaded trace

  class TraceData {
    const trace: Trace

    /** Strings read so far by offset, and the offset each of them was last read from. */
    var stringCache: map<nat, string>
    var stringIndex: map<string, nat>

    ghost predicate Valid()
      reads this
    {
      && trace.Valid()
      && (forall o :: o in stringCache ==> stringCache[o] == StringAt(trace.text, o) && stringCache[o] in stringIndex)
      && (forall s :: s in stringIndex ==> StringAt(trace.text, stringIndex[s]) == s)
    }

    constructor (trace: Trace)
      requires trace.Valid()
      ensures Valid() && this.trace == trace && stringIndex == map[]
    {
      this.trace, stringCache, stringIndex := trace, map[], map[];
    }

    /** The string at an offset, read once and then remembered. */
    method InternedSymbolString(offset: nat) returns (s: string)
      requires Valid()
      modifies this
      ensures Valid() && s == StringAt(trace.text, offset) && s in stringIndex
      ensures stringIndex == if offset in old(stringCache) then old(stringIndex) else old(stringIndex)[s := offset]
    {
      if offset in stringCache {
        return stringCache[offset];
      }
      s := StringAt(trace.text, offset);
      stringCache := stringCache[offset := s];
      stringIndex := stringIndex[s := offset];
    }

    method SymbolNameForAddress(rip: nat) returns (name: Option<string>)
      requires Valid()
      modifies this
      ensures Valid() && name == trace.SymbolName(rip)
    {
      var symbol := FindSymbol(trace.symbols, rip);
      if symbol == None {
        return None;
      }
      var s := InternedSymbolString(symbol.value.symbolName);
      return Some(s);
    }

    /** The lines of a symbol with their sums; nothing for a symbol whose name was never read. */
    method FindFileData(symbol: string) returns (info: FileInfo)
      requires Valid()
      modifies this
      ensures Valid()
      ensures var index := if symbol in old(stringIndex) then old(stringIndex)[symbol] else 0;
        if index == 0 then info == FileInfo("", 0, 0, [])
        else
          && ListsLines(info.samples, LinePaths(trace, |trace.samples|), trace.samples, symbol)
          && info.fileName == FirstFile(trace, symbol, |trace.samples|)
          && info.firstLine == (if info.samples == [] then INT_MAX else info.samples[0].lineNumber)
          && info.lastLine == (if info.samples == [] then INT_MIN else info.samples[|info.samples| - 1].lineNumber)
    {
      hide Entry, LinePaths, Booked, Matches, Spans, ListsLines, Trace.LinePath, Trace.Valid;
      SampleLengths();
      var index := if symbol in stringIndex then stringIndex[symbol] else 0;
      if index == 0 {
        return FileInfo("", 0, 0, []);
      }
      var t := trace;
      var minLine, maxLine := INT_MAX, INT_MIN;
      var fileName := "";
      var lineStats: map<nat, LineData> := map[];
      ghost var table: map<LineKey, seq<nat>> := map[];
      NoLines(symbol);
      assert lineStats.Keys == {};
      for i := 0 to |t.samples|
        invariant Valid() && fileName == FirstFile(t, symbol, i)
        invariant Matches(lineStats, table) && Spans(lineStats.Keys, minLine, maxLine)
        invariant Booked(table, LinePaths(t, i), t.samples, [Symbol(symbol)])
      {
        NextLinePath(i, symbol);
        ghost var paths, q := LinePaths(t, i), t.LinePath(t.samples[i]);
        var sym := FindSymbol(t.symbols, t.samples[i].rip);
        if sym == None {
          BookedSkip(table, paths, q, t.samples, [Symbol(symbol)]);
        } else {
          var name := InternedSymbolString(sym.value.symbolName);
          if name == symbol {
            if fileName == "" {
              fileName := InternedSymbolString(sym.value.fileName);
            }
            var lineNo := sym.value.line;
            LineInRange(t.samples[i].rip);
            LineSpans(lineStats.Keys, minLine, maxLine, lineNo);
            lineStats, table := AddLine(lineStats, lineNo, t.samples[i].stats, table, paths, q, symbol);
            minLine := if lineNo < minLine then lineNo else minLine;
            maxLine := if lineNo > maxLine then lineNo else maxLine;
          } else {
            BookedSkip(table, paths, q, t.samples, [Symbol(symbol)]);
          }
        }
      }
      MatchedLines(lineStats, table);
      var lineData := SortLines(lineStats);
      SortedLinesList(lineData, lineStats, table, LinePaths(t, |t.samples|), t.samples, symbol);
      SpanOfSorted(lineData, lineStats, minLine, maxLine);
      info := FileInfo(fileName, minLine, maxLine, lineData);
    }

    lemma SampleLengths()
      requires Valid()
      ensures Sorted(trace.symbols) && forall i :: 0 <= i < |trace.samples| ==> |trace.samples[i].stats| == COUNTERS
    {
    }

    lemma NoLines(symbol: string)
      ensures Matches(map[], map[]) && Spans({}, INT_MAX, INT_MIN)
      ensures Booked(map[], LinePaths(trace, 0), trace.samples, [Symbol(symbol)])
    {
    }

    lemma NextLinePath(i: nat, symbol: string)
      requires i < |trace.samples|
      ensures LinePaths(trace, i + 1) == LinePaths(trace, i) + [trace.LinePath(trace.samples[i])]
      ensures var q := trace.LinePath(trace.samples[i]);
        match Lookup(trace.symbols, trace.samples[i].rip)
        case None => !([Symbol(symbol)] < q)
        case Some(sym) =>
          if StringAt(trace.text, sym.symbolName) == symbol then [Symbol(symbol)] + [Line(sym.line)] <= q
          else !([Symbol(symbol)] < q)
    {
      var q := trace.LinePath(trace.samples[i]);
      assert q != [] ==> |q| == 2 && q[0].Symbol? && q[1].Line?;
    }

    lemma LineInRange(rip: nat)
      requires trace.Valid() && Lookup(trace.symbols, rip).Some?
      ensures Lookup(trace.symbols, rip).value.line <= INT_MAX
    {
      LookupFinds(trace.symbols, rip);
    }

    lemma LineLength(lines: map<nat, LineData>, table: map<LineKey, seq<nat>>, paths: seq<seq<LineKey>>,
                     symbol: string, l: nat)
      requires |paths| <= |trace.samples| && Matches(lines, table)
        && Booked(table, paths, trace.samples, [Symbol(symbol)])
      ensures l in lines ==> Line(l) in table && table[Line(l)] == lines[l].stats && |lines[l].stats| == COUNTERS
      ensures l !in lines ==> Line(l) !in table
    {
    }

    lemma LineSpans(lines: set<nat>, minLine: int, maxLine: int, l: nat)
      requires Spans(lines, minLine, maxLine) && l <= INT_MAX
      ensures Spans(lines + {l}, if l < minLine then l else minLine, if l > maxLine then l else maxLine)
    {
    }

    /** Adds counters to a line, which starts at zero. */
    method AddLine(lines: map<nat, LineData>, l: nat, more: seq<nat>, ghost table: map<LineKey, seq<nat>>,
                   ghost paths: seq<seq<LineKey>>, ghost q: seq<LineKey>, ghost symbol: string)
      returns (next: map<nat, LineData>, ghost nextTable: map<LineKey, seq<nat>>)
      requires |paths| < |trace.samples| && more == trace.samples[|paths|].stats && |more| == COUNTERS
      requires [Symbol(symbol)] + [Line(l)] <= q
      requires Matches(lines, table) && Booked(table, paths, trace.samples, [Symbol(symbol)])
      ensures Matches(next, nextTable) && Booked(nextTable, paths + [q], trace.samples, [Symbol(symbol)])
      ensures next.Keys == lines.Keys + {l}
    {
      hide Entry, Booked;
      LineLength(lines, table, paths, symbol, l);
      var data := if l in lines then lines[l] else LineData(0, Blank());
      var stats := Accumulate(data.stats, more);
      BookedNext(table, Line(l), stats, paths, q, trace.samples, [Symbol(symbol)]);
      next := lines[l := LineData(l, stats)];
      nextTable := table[Line(l) := stats];
    }

    lemma MatchedLines(lines: map<nat, LineData>, table: map<LineKey, seq<nat>>)
      requires Matches(lines, table)
      ensures forall l :: l in lines ==> lines[l].lineNumber == l
    {
    }
  }

  // ----- the flat table

  datatype Row = Row(symbolName: string, stats: seq<nat>)

  /** One row for each name that some path starts with, showing its sums. */
  ghost predicate Tabulates(rows: seq<Row>, paths: seq<seq<string>>, samples: seq<Sample>)
    requires |paths| <= |samples|
  {
    && (forall i, j :: 0 <= i < j < |rows| ==> rows[i].symbolName != rows[j].symbolName)
    && (forall i :: 0 <= i < |rows| ==> Entry(rows[i].stats, paths, samples, [rows[i].symbolName]))
    && (forall j :: 0 <= j < |paths| && paths[j] != [] ==> HasRow(rows, paths[j][0]))
  }

  ghost predicate HasRow(rows: seq<Row>, name: string) {
    exists i :: 0 <= i < |rows| && rows[i].symbolName == name
  }

  /** The index leads from every row's name to the row. */
  ghost predicate Indexed(rowOf: map<string, nat>, rows: seq<Row>) {
    && (forall i :: 0 <= i < |rows| ==> rows[i].symbolName in rowOf && rowOf[rows[i].symbolName] == i)
    && (forall name :: name in rowOf ==> rowOf[name] < |rows| && rows[rowOf[name]].symbolName == name)
  }

  ghost function Table(rowOf: map<string, nat>, rows: seq<Row>): map<string, seq<nat>> {
    map name | name in rowOf && rowOf[name] < |rows| :: rows[rowOf[name]].stats
  }

  lemma TableUpdate(rowOf: map<string, nat>, rows: seq<Row>, name: string, stats: seq<nat>)
    requires Indexed(rowOf, rows) && name in rowOf
    ensures rowOf[name] < |rows| && rows[rowOf[name]].symbolName == name
    ensures name in Table(rowOf, rows) && Table(rowOf, rows)[name] == rows[rowOf[name]].stats
    ensures var next := rows[rowOf[name] := Row(name, stats)];
      Indexed(rowOf, next) && Table(rowOf, next) == Table(rowOf, rows)[name := stats]
  {
  }

  lemma TableExtend(rowOf: map<string, nat>, rows: seq<Row>, name: string, stats: seq<nat>)
    requires Indexed(rowOf, rows) && name !in rowOf
    ensures name !in Table(rowOf, rows)
    ensures var next := rows + [Row(name, stats)];
      Indexed(rowOf[name := |rows|], next) && Table(rowOf[name := |rows|], next) == Table(rowOf, rows)[name := stats]
  {
  }

  lemma TableTabulates(rowOf: map<string, nat>, rows: seq<Row>, paths: seq<seq<string>>, samples: seq<Sample>)
    requires |paths| <= |samples| && Indexed(rowOf, rows) && Booked(Table(rowOf, rows), paths, samples, [])
    ensures Tabulates(rows, paths, samples)
  {
    hide Entry;
    var table := Table(rowOf, rows);
    forall i | 0 <= i < |rows|
      ensures Entry(rows[i].stats, paths, samples, [rows[i].symbolName])
    {
      assert rows[i].symbolName in table;
      assert [] + [rows[i].symbolName] == [rows[i].symbolName];
    }
    forall j | 0 <= j < |paths| && paths[j] != []
      ensures HasRow(rows, paths[j][0])
    {
      assert [] < paths[j] && paths[j][0] in table;
      assert rows[rowOf[paths[j][0]]].symbolName == paths[j][0];
    }
  }

  lemma NextFlatPath(t: Trace, i: nat)
    requires i < |t.samples|
    ensures FlatPaths(t, i + 1) == FlatPaths(t, i) + [t.FlatPath(t.samples[i])]
  {
  }

  class FlatModel {
    var rows: seq<Row>

    constructor ()
      ensures rows == []
    {
      rows := [];
    }

    /** Books counters under a name, in its row or in a new one. */
    method Book(name: string, more: seq<nat>, rowOf: map<string, nat>) returns (index: map<string, nat>)
      requires Indexed(rowOf, rows) && |more| == COUNTERS
      requires name in rowOf ==> |rows[rowOf[name]].stats| == COUNTERS
      modifies this
      ensures Indexed(index, rows)
      ensures var table := old(Table(rowOf, rows));
        var stats := if name in table then table[name] else Blank();
        && name in Table(index, rows) && |Table(index, rows)[name]| == COUNTERS
        && Table(index, rows) == table[name := Table(index, rows)[name]]
        && |stats| == COUNTERS
        && forall c :: 0 <= c < COUNTERS ==> Table(index, rows)[name][c] == (stats[c] + more[c]) % WORD_RANGE
    {
      var row: nat;
      index := rowOf;
      if name in rowOf {
        row := rowOf[name];
      } else {
        TableExtend(rowOf, rows, name, Blank());
        row := |rows|;
        rows := rows + [Row(name, Blank())];
        index := rowOf[name := row];
      }
      hide Indexed, Table;
      var stats := Accumulate(rows[row].stats, more);
      TableUpdate(index, rows, name, stats);
      rows := rows[row := rows[row].(stats := stats)];
    }

    /** Sums the samples up by symbol name. */
    method DataStoreChanged(data: TraceData)
      requires data.Valid()
      modifies this, data
      ensures data.Valid()
      ensures Tabulates(rows, FlatPaths(data.trace, |data.trace.samples|), data.trace.samples)
    {
      hide Entry, FlatPaths, Indexed, Booked, Table;
      rows := [];
      var rowOf: map<string, nat> := map[];
      var t := data.trace;
      NoRows(t);
      for i := 0 to |t.samples|
        invariant data.Valid() && Indexed(rowOf, rows)
        invariant Booked(Table(rowOf, rows), FlatPaths(t, i), t.samples, [])
      {
        NextFlatPath(t, i);
        var symbol := FindSymbol(t.symbols, t.samples[i].rip);
        if symbol != None {
          var name := data.SymbolNameForAddress(t.samples[i].rip);
          ghost var table := Table(rowOf, rows);
          RowLength(rowOf, rows, FlatPaths(t, i), t.samples, name.value);
          rowOf := Book(name.value, t.samples[i].stats, rowOf);
          BookedNext(table, name.value, Table(rowOf, rows)[name.value], FlatPaths(t, i), [name.value], t.samples, []);
        } else {
          BookedSkip(Table(rowOf, rows), FlatPaths(t, i), [], t.samples, []);
        }
      }
      TableTabulates(rowOf, rows, FlatPaths(t, |t.samples|), t.samples);
    }

    lemma NoRows(t: Trace)
      ensures Indexed(map[], []) && Booked(Table(map[], []), FlatPaths(t, 0), t.samples, [])
    {
    }

    lemma RowLength(rowOf: map<string, nat>, rows: seq<Row>, paths: seq<seq<string>>, samples: seq<Sample>,
                    name: string)
      requires |paths| <= |samples| && Indexed(rowOf, rows) && Booked(Table(rowOf, rows), paths, samples, [])
      ensures name in rowOf ==> rowOf[name] < |rows| && |rows[rowOf[name]].stats| == COUNTERS
    {
      if name in rowOf {
        assert Entry(Table(rowOf, rows)[name], paths, samples, [] + [name]);
      }
    }
  }
}
