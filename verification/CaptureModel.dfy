/** The capture file: how its sections lie in the bytes, and what the viewer's accessors read from them. */
module CaptureModel {
  import opened Bytes
  import opened Terminated

  const FILE_LIMIT: nat := 0x1_0000_0000
  const QUAD: nat := 0x1_0000_0000_0000_0000
  const HEADER: nat := 48

  /** What a word of the header holds until it is patched. */
  const PLACEHOLDER: nat := 0xffee_ddcc

  datatype ModuleInfo = ModuleInfo(base: nat, segment: nat, size: nat, name: seq<Byte>)

  datatype Record = Record(rip: nat, stack: nat, stats: seq<nat>)

  datatype Capture = Capture(modules: seq<ModuleInfo>, frames: seq<nat>, records: seq<Record>) {
    /** Numbers fit their fields, names hold no zero, and the file stays below 4 GB. */
    ghost predicate Fits() {
      && (forall i :: 0 <= i < |modules| ==> FitsModule(modules[i]))
      && (forall i :: 0 <= i < |frames| ==> frames[i] < QUAD)
      && (forall i :: 0 <= i < |records| ==> FitsRecord(records[i]))
      && HEADER + |Body(this)| < FILE_LIMIT
    }
  }

  predicate FitsModule(m: ModuleInfo) {
    m.base < QUAD && m.segment < QUAD && m.size < FILE_LIMIT && 0 !in m.name
  }

  predicate FitsRecord(r: Record) {
    r.rip < QUAD && r.stack < FILE_LIMIT && |r.stats| == 8 && forall k :: 0 <= k < 8 ==> r.stats[k] < FILE_LIMIT
  }

  // ----- the layout

  function Flatten(rows: seq<seq<Byte>>): seq<Byte> {
    if rows == [] then [] else Flatten(rows[..|rows| - 1]) + rows[|rows| - 1]
  }

  /** Where name i starts among the names. */
  function NameOffset(modules: seq<ModuleInfo>, i: nat): nat
    requires i <= |modules|
  {
    if i == 0 then 0 else NameOffset(modules, i - 1) + |modules[i - 1].name| + 1
  }

  function ModuleRow(modules: seq<ModuleInfo>, i: nat): (r: seq<Byte>)
    requires i < |modules|
    ensures |r| == 24
  {
    LittleEndian(modules[i].base, 8) + LittleEndian(modules[i].segment, 8) + LittleEndian(modules[i].size, 4)
    + LittleEndian(NameOffset(modules, i), 4)
  }

  function ModuleRows(modules: seq<ModuleInfo>, n: nat): (r: seq<seq<Byte>>)
    requires n <= |modules|
    ensures |r| == n
  {
    seq(n, i requires 0 <= i < n => ModuleRow(modules, i))
  }

  function NameRows(modules: seq<ModuleInfo>, n: nat): (r: seq<seq<Byte>>)
    requires n <= |modules|
    ensures |r| == n
  {
    seq(n, i requires 0 <= i < n => modules[i].name + [0])
  }

  function FrameRows(frames: seq<nat>, n: nat): (r: seq<seq<Byte>>)
    requires n <= |frames|
    ensures |r| == n
  {
    seq(n, i requires 0 <= i < n => LittleEndian(frames[i], 8))
  }

  function WordRows(ws: seq<nat>): (r: seq<seq<Byte>>)
    ensures |r| == |ws|
  {
    seq(|ws|, i requires 0 <= i < |ws| => LittleEndian(ws[i], 4))
  }

  function Words(ws: seq<nat>): seq<Byte> {
    Flatten(WordRows(ws))
  }

  function RecordRow(r: Record): seq<Byte> {
    LittleEndian(r.rip, 8) + Words([r.stack] + r.stats + [0])
  }

  function RecordRows(records: seq<Record>, n: nat): (r: seq<seq<Byte>>)
    requires n <= |records|
    ensures |r| == n
  {
    seq(n, i requires 0 <= i < n => RecordRow(records[i]))
  }

  /** Zeros up to the next multiple of eight. */
  function Padding(n: nat): (p: seq<Byte>)
    ensures (n + |p|) % 8 == 0 && |p| < 8
  {
    seq((8 - n % 8) % 8, _ => 0)
  }

  /** The module table and the names behind it. */
  function ModuleSection(modules: seq<ModuleInfo>): seq<Byte> {
    Flatten(ModuleRows(modules, |modules|)) + Flatten(NameRows(modules, |modules|))
  }

  function Body(c: Capture): seq<Byte> {
    var m := ModuleSection(c.modules);
    m + Padding(HEADER + |m|) + Flatten(FrameRows(c.frames, |c.frames|)) + Flatten(RecordRows(c.records, |c.records|))
  }

  function StringsAt(c: Capture): nat { HEADER + 24 * |c.modules| }

  function FramesAt(c: Capture): (n: nat)
    ensures n % 8 == 0
  {
    var m := ModuleSection(c.modules);
    HEADER + |m| + |Padding(HEADER + |m|)|
  }

  function RecordsAt(c: Capture): (n: nat)
    ensures n % 8 == 0
  {
    FramesAt(c) + 8 * |c.frames|
  }

  /** The header words.  Without modules the three that describe them are never patched. */
  function HeaderWords(c: Capture): (w: seq<nat>)
    ensures |w| == 12
  {
    [0xcace51af, 2]
    + (if c.modules == [] then [PLACEHOLDER, PLACEHOLDER, PLACEHOLDER] else [HEADER, |c.modules|, StringsAt(c)])
    + [FramesAt(c), |c.frames|, RecordsAt(c), |c.records|, 0, 0, 0]
  }

  function Image(c: Capture): seq<Byte> {
    Words(HeaderWords(c)) + Body(c)
  }

  // ----- the accessors

  function Word(b: seq<Byte>, at: nat): nat {
    if at + 4 <= |b| then Number(b[at..at + 4]) else 0
  }

  function Quad(b: seq<Byte>, at: nat): nat {
    if at + 8 <= |b| then Number(b[at..at + 8]) else 0
  }

  datatype ModuleEntry = ModuleEntry(base: nat, segment: nat, size: nat, name: nat)

  function ModuleCount(b: seq<Byte>): nat { Word(b, 12) }

  function ModuleAt(b: seq<Byte>, i: nat): ModuleEntry {
    var at := Word(b, 8) + 24 * i;
    ModuleEntry(Quad(b, at), Quad(b, at + 8), Word(b, at + 16), Word(b, at + 20))
  }

  /** The characters of a module's name, up to the zero. */
  function ModuleName(b: seq<Byte>, m: ModuleEntry): seq<Byte> {
    ReadFrom(b, 0, Word(b, 16) + m.name)
  }

  function FrameCount(b: seq<Byte>): nat { Word(b, 24) }

  function FrameAt(b: seq<Byte>, i: nat): nat {
    Quad(b, Word(b, 20) + 8 * i)
  }

  function RecordCount(b: seq<Byte>): nat { Word(b, 32) }

  function RecordAt(b: seq<Byte>, i: nat): Record {
    var at := Word(b, 28) + 48 * i;
    Record(Quad(b, at), Word(b, at + 8), seq(8, k requires 0 <= k < 8 => Word(b, at + 12 + 4 * k)))
  }

  // ----- finding things in concatenations

  /** The bytes hold s at this place. */
  predicate Holds(b: seq<Byte>, at: nat, s: seq<Byte>) {
    at + |s| <= |b| && b[at..at + |s|] == s
  }

  lemma HoldsPart(b: seq<Byte>, at: nat, s: seq<Byte>, from: nat, part: seq<Byte>)
    requires Holds(b, at, s) && Holds(s, from, part)
    ensures Holds(b, at + from, part)
  {
    forall k | 0 <= k < |part|
      ensures b[at + from + k] == part[k]
    {
      assert b[at + from + k] == b[at..at + |s|][from + k];
      assert s[from + k] == s[from..from + |part|][k];
    }
  }

  lemma HoldsConcat(x: seq<Byte>, y: seq<Byte>, z: seq<Byte>)
    ensures Holds(x + y + z, |x|, y)
  {
  }

  lemma {:induction false} FlattenLength(rows: seq<seq<Byte>>, size: nat)
    requires forall i :: 0 <= i < |rows| ==> |rows[i]| == size
    ensures |Flatten(rows)| == size * |rows|
  {
    if rows != [] {
      FlattenLength(rows[..|rows| - 1], size);
      assert size * |rows| == size * (|rows| - 1) + size;
    }
  }

  lemma {:induction false} FlattenConcat(a: seq<seq<Byte>>, b: seq<seq<Byte>>)
    ensures Flatten(a + b) == Flatten(a) + Flatten(b)
  {
    if b == [] {
      assert a + b == a;
    } else {
      hide Flatten;
      var init, last := b[..|b| - 1], b[|b| - 1];
      FlattenConcat(a, init);
      FlattenSnoc(a + init, last);
      FlattenSnoc(init, last);
      Regroup(a, init, [last]);
      assert b == init + [last];
      Regroup(Flatten(a), Flatten(init), last);
    }
  }

  lemma Regroup<T>(a: seq<T>, b: seq<T>, c: seq<T>)
    ensures a + (b + c) == a + b + c
  {
  }

  lemma FlattenSnoc(rows: seq<seq<Byte>>, last: seq<Byte>)
    ensures Flatten(rows + [last]) == Flatten(rows) + last
  {
    assert (rows + [last])[..|rows|] == rows;
  }

  /** Row i of equally long rows lies at i times their length. */
  lemma RowAt(rows: seq<seq<Byte>>, size: nat, i: nat)
    requires i < |rows| && forall k :: 0 <= k < |rows| ==> |rows[k]| == size
    ensures Holds(Flatten(rows), size * i, rows[i])
  {
    hide Flatten;
    var a, b := rows[..i], rows[i + 1..];
    FlattenLength(a, size);
    FlattenConcat(a, [rows[i]]);
    FlattenConcat(a + [rows[i]], b);
    FlattenOne(rows[i]);
    assert a + [rows[i]] + b == rows;
    HoldsConcat(Flatten(a), rows[i], Flatten(b));
  }

  lemma FlattenOne(row: seq<Byte>)
    ensures Flatten([row]) == row
  {
  }

  lemma WordAt(b: seq<Byte>, at: nat, ws: seq<nat>, i: nat)
    requires Holds(b, at, Words(ws)) && i < |ws| && ws[i] < FILE_LIMIT
    ensures Word(b, at + 4 * i) == ws[i]
  {
    RowAt(WordRows(ws), 4, i);
    HoldsPart(b, at, Words(ws), 4 * i, WordRows(ws)[i]);
    HoldsWord(b, at + 4 * i, ws[i]);
  }

  lemma HoldsWord(b: seq<Byte>, at: nat, n: nat)
    requires Holds(b, at, LittleEndian(n, 4)) && n < FILE_LIMIT
    ensures Word(b, at) == n
  {
    Ranges();
    NumberOfLittleEndian(n, 4);
  }

  lemma HoldsQuad(b: seq<Byte>, at: nat, n: nat)
    requires Holds(b, at, LittleEndian(n, 8)) && n < QUAD
    ensures Quad(b, at) == n
  {
    Ranges();
    NumberOfLittleEndian(n, 8);
  }

  lemma WordsLength(ws: seq<nat>)
    ensures |Words(ws)| == 4 * |ws|
  {
    FlattenLength(WordRows(ws), 4);
  }

  lemma WordsConcat(a: seq<nat>, b: seq<nat>)
    ensures Words(a + b) == Words(a) + Words(b)
  {
    FlattenConcat(WordRows(a), WordRows(b));
    assert WordRows(a) + WordRows(b) == WordRows(a + b);
  }

  // ----- reading a capture back

  /** The file describes the capture in its first nine header words and holds its sections behind the header;
      the symbol words of the header and whatever follows the sections do not matter. */
  ghost predicate Describes(b: seq<Byte>, c: Capture) {
    Holds(b, 0, Words(HeaderWords(c)[..9])) && Holds(b, HEADER, Body(c))
  }

  lemma ImageDescribes(c: Capture)
    ensures Describes(Image(c), c)
  {
    hide Words, Body, HeaderWords;
    var w := HeaderWords(c);
    WordsConcat(w[..9], w[9..]);
    assert w[..9] + w[9..] == w;
    WordsLength(w);
    HoldsConcat([], Words(w[..9]), Words(w[9..]) + Body(c));
    assert [] + Words(w[..9]) + (Words(w[9..]) + Body(c)) == Image(c);
    HoldsConcat(Words(w), Body(c), []);
    assert Words(w) + Body(c) + [] == Image(c);
  }

  lemma HeaderWord(b: seq<Byte>, c: Capture, i: nat)
    requires Describes(b, c) && i < 9 && HeaderWords(c)[i] < FILE_LIMIT
    ensures Word(b, 4 * i) == HeaderWords(c)[i]
  {
    WordAt(b, 0, HeaderWords(c)[..9], i);
  }

  /** The file starts with the signature and the version. */
  lemma SignatureReadsBack(b: seq<Byte>, c: Capture)
    requires Describes(b, c)
    ensures Word(b, 0) == 0xcace51af && Word(b, 4) == 2
  {
    hide Describes, Word;
    HeaderWord(b, c, 0);
    HeaderWord(b, c, 1);
  }

  /** Every section starts inside the file. */
  lemma SectionsInside(c: Capture)
    requires c.Fits()
    ensures StringsAt(c) <= FramesAt(c) <= RecordsAt(c) < FILE_LIMIT
    ensures |c.modules| < FILE_LIMIT && |c.frames| < FILE_LIMIT && |c.records| < FILE_LIMIT
    ensures |Flatten(ModuleRows(c.modules, |c.modules|))| == 24 * |c.modules|
    ensures |Flatten(FrameRows(c.frames, |c.frames|))| == 8 * |c.frames|
    ensures |Flatten(RecordRows(c.records, |c.records|))| == 48 * |c.records|
  {
    FlattenLength(ModuleRows(c.modules, |c.modules|), 24);
    FlattenLength(FrameRows(c.frames, |c.frames|), 8);
    RecordRowLengths(c.records);
    FlattenLength(RecordRows(c.records, |c.records|), 48);
  }

  lemma RecordRowLengths(records: seq<Record>)
    requires forall i :: 0 <= i < |records| ==> FitsRecord(records[i])
    ensures forall i :: 0 <= i < |records| ==> |RecordRows(records, |records|)[i]| == 48
  {
    forall i | 0 <= i < |records|
      ensures |RecordRow(records[i])| == 48
    {
      assert FitsRecord(records[i]);
      WordsLength([records[i].stack] + records[i].stats + [0]);
    }
  }

  /** The sections lie where the header says. */
  lemma SectionsHeld(b: seq<Byte>, c: Capture)
    requires c.Fits() && Describes(b, c)
    ensures Holds(b, HEADER, Flatten(ModuleRows(c.modules, |c.modules|)))
    ensures Holds(b, StringsAt(c), Flatten(NameRows(c.modules, |c.modules|)))
    ensures Holds(b, FramesAt(c), Flatten(FrameRows(c.frames, |c.frames|)))
    ensures Holds(b, RecordsAt(c), Flatten(RecordRows(c.records, |c.records|)))
  {
    hide Flatten;
    SectionsInside(c);
    var m, n := Flatten(ModuleRows(c.modules, |c.modules|)), Flatten(NameRows(c.modules, |c.modules|));
    var p := Padding(HEADER + |m + n|);
    var f, r := Flatten(FrameRows(c.frames, |c.frames|)), Flatten(RecordRows(c.records, |c.records|));
    assert Body(c) == m + n + p + f + r;
    HeldInBody(b, [], m, n + p + f + r, c);
    HeldInBody(b, m, n, p + f + r, c);
    HeldInBody(b, m + n + p, f, r, c);
    HeldInBody(b, m + n + p + f, r, [], c);
  }

  lemma HeldInBody(b: seq<Byte>, x: seq<Byte>, y: seq<Byte>, z: seq<Byte>, c: Capture)
    requires Holds(b, HEADER, Body(c)) && Body(c) == x + y + z
    ensures Holds(b, HEADER + |x|, y)
  {
    HoldsConcat(x, y, z);
    HoldsPart(b, HEADER, Body(c), |x|, y);
  }

  /** The frames read back. */
  lemma FramesReadBack(b: seq<Byte>, c: Capture, i: nat)
    requires c.Fits() && Describes(b, c)
    ensures FrameCount(b) == |c.frames| && Word(b, 20) % 8 == 0
    ensures i < |c.frames| ==> FrameAt(b, i) == c.frames[i]
  {
    hide Flatten, Words;
    SectionsInside(c);
    HeaderWord(b, c, 5);
    HeaderWord(b, c, 6);
    if i < |c.frames| {
      SectionsHeld(b, c);
      var rows := FrameRows(c.frames, |c.frames|);
      RowAt(rows, 8, i);
      HoldsPart(b, FramesAt(c), Flatten(rows), 8 * i, rows[i]);
      HoldsQuad(b, FramesAt(c) + 8 * i, c.frames[i]);
    }
  }

  /** The statistics records read back. */
  lemma RecordsReadBack(b: seq<Byte>, c: Capture, i: nat)
    requires c.Fits() && Describes(b, c)
    ensures RecordCount(b) == |c.records| && Word(b, 28) % 8 == 0
    ensures i < |c.records| ==> RecordAt(b, i) == c.records[i]
  {
    hide Flatten, Words;
    SectionsInside(c);
    HeaderWord(b, c, 7);
    HeaderWord(b, c, 8);
    if i < |c.records| {
      SectionsHeld(b, c);
      var rows := RecordRows(c.records, |c.records|);
      RecordRowLengths(c.records);
      RowAt(rows, 48, i);
      HoldsPart(b, RecordsAt(c), Flatten(rows), 48 * i, rows[i]);
      assert FitsRecord(c.records[i]);
      RecordHeld(b, RecordsAt(c) + 48 * i, c.records[i]);
    }
  }

  lemma RecordHeld(b: seq<Byte>, at: nat, r: Record)
    requires Holds(b, at, RecordRow(r)) && FitsRecord(r)
    ensures Quad(b, at) == r.rip && Word(b, at + 8) == r.stack
    ensures forall k :: 0 <= k < 8 ==> Word(b, at + 12 + 4 * k) == r.stats[k]
  {
    hide Words, Word, Quad;
    var ws := [r.stack] + r.stats + [0];
    HoldsConcat([], LittleEndian(r.rip, 8), Words(ws));
    assert [] + LittleEndian(r.rip, 8) + Words(ws) == RecordRow(r);
    HoldsPart(b, at, RecordRow(r), 0, LittleEndian(r.rip, 8));
    HoldsQuad(b, at, r.rip);
    HoldsConcat(LittleEndian(r.rip, 8), Words(ws), []);
    assert LittleEndian(r.rip, 8) + Words(ws) + [] == RecordRow(r);
    HoldsPart(b, at, RecordRow(r), 8, Words(ws));
    WordAt(b, at + 8, ws, 0);
    forall k | 0 <= k < 8
      ensures Word(b, at + 12 + 4 * k) == r.stats[k]
    {
      WordAt(b, at + 8, ws, k + 1);
    }
  }

  lemma {:induction false} NameAt(modules: seq<ModuleInfo>, n: nat, i: nat)
    requires i < n <= |modules|
    ensures |Flatten(NameRows(modules, n))| == NameOffset(modules, n)
    ensures NameOffset(modules, i) < NameOffset(modules, n)
    ensures Holds(Flatten(NameRows(modules, n)), NameOffset(modules, i), modules[i].name + [0])
    decreases n
  {
    var rows, init := NameRows(modules, n), NameRows(modules, n - 1);
    assert rows[..n - 1] == init;
    if i < n - 1 {
      NameAt(modules, n - 1, i);
      var row := modules[i].name + [0];
      assert Flatten(rows)[NameOffset(modules, i)..NameOffset(modules, i) + |row|] ==
             Flatten(init)[NameOffset(modules, i)..NameOffset(modules, i) + |row|];
    } else if n > 1 {
      NameAt(modules, n - 1, 0);
    }
  }

  lemma ModuleHeld(b: seq<Byte>, at: nat, modules: seq<ModuleInfo>, i: nat)
    requires i < |modules| && FitsModule(modules[i]) && NameOffset(modules, i) < FILE_LIMIT
    requires Holds(b, at, ModuleRow(modules, i))
    ensures Quad(b, at) == modules[i].base && Quad(b, at + 8) == modules[i].segment
    ensures Word(b, at + 16) == modules[i].size && Word(b, at + 20) == NameOffset(modules, i)
  {
    hide Word, Quad, NameOffset;
    var m, o, row := modules[i], NameOffset(modules, i), ModuleRow(modules, i);
    var f0, f1 := LittleEndian(m.base, 8), LittleEndian(m.segment, 8);
    var f2, f3 := LittleEndian(m.size, 4), LittleEndian(o, 4);
    HoldsConcat([], f0, f1 + f2 + f3);
    assert [] + f0 + (f1 + f2 + f3) == row;
    HoldsConcat(f0, f1, f2 + f3);
    assert f0 + f1 + (f2 + f3) == row;
    HoldsConcat(f0 + f1, f2, f3);
    HoldsConcat(f0 + f1 + f2, f3, []);
    assert f0 + f1 + f2 + f3 + [] == row;
    HoldsPart(b, at, row, 0, f0);
    HoldsPart(b, at, row, 8, f1);
    HoldsPart(b, at, row, 16, f2);
    HoldsPart(b, at, row, 20, f3);
    HoldsQuad(b, at, m.base);
    HoldsQuad(b, at + 8, m.segment);
    HoldsWord(b, at + 16, m.size);
    HoldsWord(b, at + 20, o);
  }

  /** The modules read back with their names. */
  lemma ModulesReadBack(b: seq<Byte>, c: Capture, i: nat)
    requires c.Fits() && Describes(b, c) && i < |c.modules|
    ensures ModuleCount(b) == |c.modules| && Word(b, 8) % 8 == 0
    ensures var m := ModuleAt(b, i);
      && m.base == c.modules[i].base && m.segment == c.modules[i].segment && m.size == c.modules[i].size
      && ModuleName(b, m) == c.modules[i].name
  {
    hide Flatten, Words, Word, Quad, NameOffset, ModuleRow, ReadFrom, Body;
    SectionsInside(c);
    SectionsHeld(b, c);
    HeaderWord(b, c, 2);
    HeaderWord(b, c, 3);
    HeaderWord(b, c, 4);
    var rows, n, o := ModuleRows(c.modules, |c.modules|), |c.modules|, NameOffset(c.modules, i);
    NameAt(c.modules, n, i);
    var names := Flatten(NameRows(c.modules, n));
    RowAt(rows, 24, i);
    HoldsPart(b, HEADER, Flatten(rows), 24 * i, rows[i]);
    assert FitsModule(c.modules[i]);
    ModuleHeld(b, HEADER + 24 * i, c.modules, i);
    HoldsPart(b, StringsAt(c), names, o, c.modules[i].name + [0]);
    NameReadsBack(b, StringsAt(c) + o, c.modules[i].name);
  }

  lemma NameReadsBack(b: seq<Byte>, at: nat, name: seq<Byte>)
    requires Holds(b, at, name + [0]) && 0 !in name
    ensures ReadFrom(b, 0, at) == name
  {
    var row := name + [0];
    assert b[at..at + |row|][..|name|] == b[at..at + |name|];
    assert row[..|name|] == name;
    assert b[at..at + |row|][|name|] == b[at + |name|];
    RecordedReadsBack(b, 0, at, name);
  }

  /** The module count reads back exactly when there are modules: the header words of an empty list keep
      their placeholder. */
  lemma ModuleCountReadsBackIff(b: seq<Byte>, c: Capture)
    requires c.Fits() && Describes(b, c)
    ensures ModuleCount(b) == |c.modules| <==> c.modules != []
  {
    if c.modules == [] {
      HeaderWord(b, c, 3);
    } else {
      ModulesReadBack(b, c, 0);
    }
  }
}
