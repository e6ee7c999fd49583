/** Resolved symbols appended to a capture file, and the viewer's accessors for them. */
module SymbolFile {
  import opened Bytes
  import opened CaptureModel
  import opened Symbols
  import opened Terminated
  import F = CaptureFile

  // ----- the layout

  /** Strings are kept in 16-bit units. */
  function Units(s: string): (u: seq<nat>)
    ensures |u| == |s|
  {
    seq(|s|, i requires 0 <= i < |s| => s[i] as nat)
  }

  function UnitRows(s: string): (r: seq<seq<Byte>>)
    ensures |r| == |s|
  {
    seq(|s|, i requires 0 <= i < |s| => LittleEndian(s[i] as nat, 2))
  }

  /** Four bytes behind the address are padding. */
  function SymbolRow(s: SerializedSymbol): (r: seq<Byte>)
  {
    LittleEndian(s.rip, 8) + Words([0, s.fileName, s.symbolName, s.moduleIndex, s.line, s.displacement])
  }

  function SymbolRows(symbols: seq<SerializedSymbol>): (r: seq<seq<Byte>>)
    ensures |r| == |symbols|
  {
    seq(|symbols|, i requires 0 <= i < |symbols| => SymbolRow(symbols[i]))
  }

  // ----- the accessors

  function SymbolCount(b: seq<Byte>): nat { Word(b, 40) }

  function SymbolAt(b: seq<Byte>, i: nat): SerializedSymbol {
    var at := Word(b, 36) + 32 * i;
    SerializedSymbol(Quad(b, at), Word(b, at + 12), Word(b, at + 16),
                     Word(b, at + 20), Word(b, at + 24), Word(b, at + 28))
  }

  /** The units of the string at an offset, up to the zero. */
  function TextFrom(b: seq<Byte>, at: nat): seq<nat>
    decreases |b| - at
  {
    if at + 2 > |b| || Number(b[at..at + 2]) == 0 then [] else [Number(b[at..at + 2])] + TextFrom(b, at + 2)
  }

  function TextAt(b: seq<Byte>, offset: nat): seq<nat> {
    TextFrom(b, Word(b, 44) + 2 * offset)
  }

  // ----- reading back

  ghost predicate HasSymbols(b: seq<Byte>, size: nat, symbols: seq<SerializedSymbol>, text: string) {
    && Word(b, 36) == size && Word(b, 40) == |symbols| && Word(b, 44) == size + 32 * |symbols|
    && Holds(b, size, Flatten(SymbolRows(symbols)))
    && Holds(b, size + 32 * |symbols|, Flatten(UnitRows(text)))
  }

  lemma SymbolRowLength(s: SerializedSymbol)
    ensures |SymbolRow(s)| == 32
  {
    WordsLength([0, s.fileName, s.symbolName, s.moduleIndex, s.line, s.displacement]);
  }

  lemma SymbolRowsLength(symbols: seq<SerializedSymbol>)
    ensures forall i :: 0 <= i < |symbols| ==> |SymbolRows(symbols)[i]| == 32
    ensures |Flatten(SymbolRows(symbols))| == 32 * |symbols|
  {
    hide SymbolRow;
    forall i | 0 <= i < |symbols|
      ensures |SymbolRows(symbols)[i]| == 32
    {
      SymbolRowLength(symbols[i]);
    }
    FlattenLength(SymbolRows(symbols), 32);
  }

  /** The symbol records read back. */
  lemma SymbolsReadBack(b: seq<Byte>, size: nat, symbols: seq<SerializedSymbol>, text: string, i: nat)
    requires HasSymbols(b, size, symbols, text) && i < |symbols| && FitsSymbol(symbols[i])
    ensures SymbolCount(b) == |symbols| && SymbolAt(b, i) == symbols[i]
  {
    hide Flatten, Words, SymbolRow, Word, Quad;
    var rows := SymbolRows(symbols);
    SymbolRowsLength(symbols);
    RowAt(rows, 32, i);
    HoldsPart(b, size, Flatten(rows), 32 * i, rows[i]);
    SymbolHeld(b, size + 32 * i, symbols[i]);
  }

  lemma SymbolHeld(b: seq<Byte>, at: nat, s: SerializedSymbol)
    requires Holds(b, at, SymbolRow(s)) && FitsSymbol(s)
    ensures Quad(b, at) == s.rip && Word(b, at + 12) == s.fileName && Word(b, at + 16) == s.symbolName
    ensures Word(b, at + 20) == s.moduleIndex && Word(b, at + 24) == s.line && Word(b, at + 28) == s.displacement
  {
    hide Words, Word, Quad;
    var ws := [0, s.fileName, s.symbolName, s.moduleIndex, s.line, s.displacement];
    HoldsConcat([], LittleEndian(s.rip, 8), Words(ws));
    assert [] + LittleEndian(s.rip, 8) + Words(ws) == SymbolRow(s);
    HoldsPart(b, at, SymbolRow(s), 0, LittleEndian(s.rip, 8));
    HoldsQuad(b, at, s.rip);
    HoldsConcat(LittleEndian(s.rip, 8), Words(ws), []);
    assert LittleEndian(s.rip, 8) + Words(ws) + [] == SymbolRow(s);
    HoldsPart(b, at, SymbolRow(s), 8, Words(ws));
    WordAt(b, at + 8, ws, 1);
    WordAt(b, at + 8, ws, 2);
    WordAt(b, at + 8, ws, 3);
    WordAt(b, at + 8, ws, 4);
    WordAt(b, at + 8, ws, 5);
  }

  /** The symbols as the accessors return them. */
  function ReadSymbols(b: seq<Byte>): seq<SerializedSymbol> {
    seq(SymbolCount(b), i requires 0 <= i < SymbolCount(b) => SymbolAt(b, i))
  }

  lemma AllSymbolsReadBack(b: seq<Byte>, size: nat, symbols: seq<SerializedSymbol>, text: string)
    requires HasSymbols(b, size, symbols, text) && forall i :: 0 <= i < |symbols| ==> FitsSymbol(symbols[i])
    ensures ReadSymbols(b) == symbols
  {
    hide SymbolAt, FitsSymbol;
    forall i | 0 <= i < |symbols|
      ensures SymbolAt(b, i) == symbols[i]
    {
      SymbolsReadBack(b, size, symbols, text, i);
    }
  }

  /** Strings read back unit by unit. */
  lemma {:induction false} TextReadsBack(b: seq<Byte>, at: nat, text: string, offset: nat)
    requires Holds(b, at, Flatten(UnitRows(text))) && offset <= |text| && NUL in text[offset..]
    requires FitsUnits(text)
    ensures TextFrom(b, at + 2 * offset) == Units(StringAt(text, offset))
    decreases |text| - offset
  {
    UnitHeld(b, at, text, offset);
    hide Flatten, LittleEndian, Number;
    if text[offset] != NUL {
      assert text[offset..][1..] == text[offset + 1..];
      TextReadsBack(b, at, text, offset + 1);
      assert Units(StringAt(text, offset)) == [text[offset] as nat] + Units(StringAt(text, offset + 1));
    }
  }

  lemma UnitHeld(b: seq<Byte>, at: nat, text: string, i: nat)
    requires Holds(b, at, Flatten(UnitRows(text))) && i < |text| && text[i] as nat < UNIT
    ensures at + 2 * i + 2 <= |b| && Number(b[at + 2 * i..at + 2 * i + 2]) == text[i] as nat
  {
    RowAt(UnitRows(text), 2, i);
    HoldsPart(b, at, Flatten(UnitRows(text)), 2 * i, UnitRows(text)[i]);
    Ranges();
    NumberOfLittleEndian(text[i] as nat, 2);
  }

  // ----- appending

  lemma FirstNine(w: seq<nat>)
    requires |w| == 12
    ensures |Words(w)| == HEADER && Words(w)[..36] == Words(w[..9])
  {
    WordsConcat(w[..9], w[9..]);
    WordsLength(w[..9]);
    WordsLength(w);
    hide Words;
    assert w[..9] + w[9..] == w;
  }

  lemma Spliced(w: seq<nat>, a: nat, n: nat, t: nat)
    requires |w| == 12
    ensures |Words(w)| == HEADER
    ensures Words(w)[..36] + LittleEndian(a, 4) + LittleEndian(n, 4) + LittleEndian(t, 4) ==
      Words(w[9 := a][10 := n][11 := t])
  {
    hide Words, LittleEndian;
    FirstNine(w);
    F.WordsMore(w[..9], a);
    F.WordsMore(w[..9] + [a], n);
    F.WordsMore(w[..9] + [a] + [n], t);
    assert w[..9] + [a] + [n] + [t] == w[9 := a][10 := n][11 := t];
  }

  /** Copies over what is there. */
  method CopyTo(f: F.OutFile, at: nat, s: seq<Byte>)
    requires at + |s| <= |f.bytes|
    modifies f`bytes
    ensures f.bytes == old(f.bytes[..at]) + s + old(f.bytes[at + |s|..])
  {
    f.bytes := f.bytes[..at] + s + f.bytes[at + |s|..];
  }

  /** Makes the file longer, puts symbols and text into the new space, and enters them in the header.
      Everything else stays as it was. */
  method AppendSymbols(f: F.OutFile, symbols: seq<SerializedSymbol>, text: string, ghost w: seq<nat>,
                       ghost body: seq<Byte>)
    requires |w| == 12 && f.bytes == Words(w) + body
    requires |f.bytes| + 32 * |symbols| + 2 * |text| < FILE_LIMIT
    modifies f`bytes
    ensures var size := |old(f.bytes)|;
      f.bytes == Words(w[9 := size][10 := |symbols|][11 := size + 32 * |symbols|]) + body
                 + Flatten(SymbolRows(symbols)) + Flatten(UnitRows(text))
  {
    hide *;
    var dataSize := |f.bytes|;
    var symbolTextOffset := dataSize + 32 * |symbols|;
    Spliced(w, dataSize, |symbols|, symbolTextOffset);
    SectionLengths(symbols, text);
    ghost var syms, units := Flatten(SymbolRows(symbols)), Flatten(UnitRows(text));
    HeaderPrefix(Words(w), body);
    var newHeader := f.bytes[..36] + LittleEndian(dataSize, 4) + LittleEndian(|symbols|, 4)
      + LittleEndian(symbolTextOffset, 4);
    var more := seq(32 * |symbols| + 2 * |text|, _ => 0);
    ghost var before := f.bytes;
    f.bytes := f.bytes + more;
    CopyTo(f, dataSize, Flatten(SymbolRows(symbols)));
    CopyTo(f, symbolTextOffset, Flatten(UnitRows(text)));
    FilledIn(before, more, syms, units);
    CopyTo(f, 0, newHeader);
    HeaderReplaced(Words(w), body + syms + units, newHeader);
    SumOfSections(Words(w), body, syms, units);
    SumOfSections(newHeader, body, syms, units);
  }

  lemma SectionLengths(symbols: seq<SerializedSymbol>, text: string)
    ensures |Flatten(SymbolRows(symbols))| == 32 * |symbols| && |Flatten(UnitRows(text))| == 2 * |text| && HEADER == 48
  {
    SymbolRowsLength(symbols);
    FlattenLength(UnitRows(text), 2);
  }

  lemma HeaderPrefix(h: seq<Byte>, body: seq<Byte>)
    requires |h| == HEADER
    ensures (h + body)[..36] == h[..36]
  {
  }

  lemma FilledIn(b: seq<Byte>, more: seq<Byte>, x: seq<Byte>, y: seq<Byte>)
    requires |more| == |x| + |y|
    ensures var s := (b + more)[..|b|] + x + (b + more)[|b| + |x|..];
      s[..|b| + |x|] + y + s[|b| + |x| + |y|..] == b + x + y
  {
  }

  lemma HeaderReplaced(h: seq<Byte>, rest: seq<Byte>, n: seq<Byte>)
    requires |h| == |n|
    ensures (h + rest)[..0] + n + (h + rest)[|n|..] == n + rest
  {
  }

  lemma SumOfSections(h: seq<Byte>, body: seq<Byte>, x: seq<Byte>, y: seq<Byte>)
    ensures h + (body + x + y) == h + body + x + y
  {
  }

  // ----- what appending leaves and adds

  /** Capture c with these symbols and this text behind it. */
  function Resolved(c: Capture, symbols: seq<SerializedSymbol>, text: string): seq<Byte> {
    var size := |Image(c)|;
    Words(HeaderWords(c)[9 := size][10 := |symbols|][11 := size + 32 * |symbols|]) + Body(c)
    + Flatten(SymbolRows(symbols)) + Flatten(UnitRows(text))
  }

  /** Appending symbols keeps the capture readable as it was and makes the symbols readable. */
  lemma ResolvedDescribes(c: Capture, symbols: seq<SerializedSymbol>, text: string)
    requires |Image(c)| + 32 * |symbols| + 2 * |text| < FILE_LIMIT
    ensures Describes(Resolved(c, symbols, text), c)
    ensures HasSymbols(Resolved(c, symbols, text), |Image(c)|, symbols, text)
  {
    hide Words, Flatten, Body, HeaderWords;
    var size, w := |Image(c)|, HeaderWords(c);
    var x := w[9 := size][10 := |symbols|][11 := size + 32 * |symbols|];
    var b, syms, units := Resolved(c, symbols, text), Flatten(SymbolRows(symbols)), Flatten(UnitRows(text));
    FirstNine(w);
    FirstNine(x);
    assert x[..9] == w[..9];
    SectionLengths(symbols, text);
    HoldsConcat([], Words(x), Body(c) + syms + units);
    assert [] + Words(x) + (Body(c) + syms + units) == b;
    assert Words(x)[0..36] == Words(x[..9]);
    WordsLength(x[..9]);
    HoldsPart(b, 0, Words(x), 0, Words(x[..9]));
    HoldsConcat(Words(x), Body(c), syms + units);
    assert Words(x) + Body(c) + (syms + units) == b;
    HoldsConcat(Words(x) + Body(c), syms, units);
    HoldsConcat(Words(x) + Body(c) + syms, units, []);
    assert Words(x) + Body(c) + syms + units + [] == b;
    WordAt(b, 0, x, 9);
    WordAt(b, 0, x, 10);
    WordAt(b, 0, x, 11);
  }

  /** What the viewer reads in the file about the address is what resolution found out. */
  ghost predicate ReadsAs(b: seq<Byte>, r: ResolvedSymbol) {
    var s := Lookup(ReadSymbols(b), r.rip);
    && s.Some? && s.value.rip == r.rip && s.value.moduleIndex == r.moduleIndex
    && s.value.line == r.line && s.value.displacement == r.displacement
    && TextAt(b, s.value.symbolName) == Units(UpTo(r.symbolName, NUL))
    && TextAt(b, s.value.fileName) == Units(UpTo(r.fileName, NUL))
  }

  /** The bytes answer for exactly the resolved addresses. */
  ghost predicate AnswersFor(b: seq<Byte>, resolved: seq<ResolvedSymbol>) {
    && (forall rip :: Lookup(ReadSymbols(b), rip).Some? <==> WasResolved(resolved, rip))
    && (forall i :: 0 <= i < |resolved| ==> ReadsAs(b, resolved[i]))
  }

  /** Symbols and text that answer for the resolved addresses still do once they are bytes. */
  lemma AnswersReadBack(c: Capture, resolved: seq<ResolvedSymbol>, symbols: seq<SerializedSymbol>, text: string)
    requires |Image(c)| + 32 * |symbols| + 2 * |text| < FILE_LIMIT
    requires forall k :: 0 <= k < |symbols| ==> FitsSymbol(symbols[k])
    requires FitsUnits(text) && text != "" && text[|text| - 1] == NUL
    requires Answers(symbols, text, resolved)
    ensures AnswersFor(Resolved(c, symbols, text), resolved)
  {
    var b, size := Resolved(c, symbols, text), |Image(c)|;
    hide Lookup, Tells, WasResolved, Resolved, ReadSymbols, HasSymbols, FitsUnits, FitsSymbol, Image, ReadsAs,
         Describes;
    ResolvedDescribes(c, symbols, text);
    AllSymbolsReadBack(b, size, symbols, text);
    forall i | 0 <= i < |resolved|
      ensures ReadsAs(b, resolved[i])
    {
      RecordReadsBack(b, size, symbols, text, resolved[i]);
    }
  }

  lemma RecordReadsBack(b: seq<Byte>, size: nat, symbols: seq<SerializedSymbol>, text: string, r: ResolvedSymbol)
    requires HasSymbols(b, size, symbols, text) && ReadSymbols(b) == symbols
    requires FitsUnits(text) && text != "" && text[|text| - 1] == NUL && Found(symbols, text, r)
    ensures ReadsAs(b, r)
  {
    hide Lookup, StringAt, UpTo, HasSymbols, ReadSymbols, FitsUnits, TextAt, Units;
    var s := Lookup(symbols, r.rip).value;
    StringReadsBack(b, size, symbols, text, s.symbolName);
    StringReadsBack(b, size, symbols, text, s.fileName);
  }

  /** Resolution of a capture file: the capture stays readable as it was, and the viewer finds a record for
      exactly the resolved addresses, with every field and with both names. */
  method ResolveFile(f: F.OutFile, resolved: seq<ResolvedSymbol>, ghost c: Capture)
    requires f.bytes == Image(c)
    requires forall i :: 0 <= i < |resolved| ==> InRange(resolved[i])
    requires forall i, j :: 0 <= i < j < |resolved| ==> resolved[i].rip != resolved[j].rip
    requires |Image(c)| + 32 * |resolved| + 2 * TextSize(resolved) < FILE_LIMIT
    modifies f`bytes
    ensures Describes(f.bytes, c) && AnswersFor(f.bytes, resolved)
  {
    hide Describes, AnswersFor, Answers, InRange, TextSize, FitsUnits, FitsSymbol, Words, Body, HeaderWords, Flatten;
    var symbols, text := SerializeSymbols(resolved);
    AppendSymbols(f, symbols, text, HeaderWords(c), Body(c));
    ResolvedDescribes(c, symbols, text);
    AnswersReadBack(c, resolved, symbols, text);
  }

  lemma StringReadsBack(b: seq<Byte>, size: nat, symbols: seq<SerializedSymbol>, text: string, offset: nat)
    requires HasSymbols(b, size, symbols, text)
    requires offset < |text| && text[|text| - 1] == NUL && FitsUnits(text)
    ensures TextAt(b, offset) == Units(StringAt(text, offset))
  {
    hide Holds, StringAt, TextFrom, Word, Units;
    EndsInNul(text, offset);
    TextReadsBack(b, size + 32 * |symbols|, text, offset);
  }

  lemma EndsInNul(text: string, offset: nat)
    requires offset < |text| && text[|text| - 1] == NUL
    ensures NUL in text[offset..]
  {
  }
}
