/** Writing a capture, front to back, with header words patched once they are known; and the viewer's
    appending of resolved symbols. */
module CaptureFile {
  import opened Bytes
  import opened CaptureModel

  /** A file open for writing. */
  class OutFile {
    var bytes: seq<Byte>
    var pos: nat

    constructor ()
      ensures bytes == [] && pos == 0
    {
      bytes, pos := [], 0;
    }

    /** Writes over what is there and past the end. */
    method Write(s: seq<Byte>)
      requires pos <= |bytes|
      modifies this
      ensures pos == old(pos) + |s| <= |bytes|
      ensures bytes == old(bytes[..pos]) + s + if pos <= |old(bytes)| then old(bytes)[pos..] else []
    {
      var end := pos + |s|;
      bytes := bytes[..pos] + s + if end <= |bytes| then bytes[end..] else [];
      pos := end;
    }

    method Seek(to: nat)
      requires to <= |bytes|
      modifies this`pos
      ensures pos == to
    {
      pos := to;
    }
  }

  /** The file holds these header words and this body, and is positioned at its end. */
  ghost predicate At(f: OutFile, w: seq<nat>, body: seq<Byte>)
    reads f
  {
    f.bytes == Words(w) + body && f.pos == |f.bytes|
  }

  lemma Overwritten(x: seq<Byte>, y: seq<Byte>, z: seq<Byte>, t: seq<Byte>)
    requires |y| == |t|
    ensures (x + y + z)[..|x|] + t + (x + y + z)[|x| + |y|..] == x + t + z
  {
  }

  lemma Patched(w: seq<nat>, i: nat, n: nat, body: seq<Byte>)
    requires i < |w|
    ensures 4 * i + 4 <= |Words(w)| == 4 * |w|
    ensures var b := Words(w) + body;
      b[..4 * i] + LittleEndian(n, 4) + b[4 * i + 4..] == Words(w[i := n]) + body
  {
    hide Words, LittleEndian;
    var x, y := w[..i], w[i + 1..];
    WordsAround(x, w[i], y);
    WordsAround(x, n, y);
    assert x + [w[i]] + y == w && x + [n] + y == w[i := n];
    WordsLength(w);
    WordsLength(x);
    var z := Words(y) + body;
    Overwritten(Words(x), LittleEndian(w[i], 4), z, LittleEndian(n, 4));
    assert Words(x) + LittleEndian(w[i], 4) + z == Words(w) + body;
    assert Words(x) + LittleEndian(n, 4) + z == Words(w[i := n]) + body;
  }

  lemma WordsAround(x: seq<nat>, n: nat, y: seq<nat>)
    ensures Words(x + [n] + y) == Words(x) + LittleEndian(n, 4) + Words(y)
  {
    hide LittleEndian;
    WordsConcat(x + [n], y);
    WordsMore(x, n);
  }

  lemma WordsMore(x: seq<nat>, n: nat)
    ensures Words(x + [n]) == Words(x) + LittleEndian(n, 4)
  {
    hide LittleEndian;
    WordsConcat(x, [n]);
    FlattenOne(LittleEndian(n, 4));
    assert WordRows([n]) == [LittleEndian(n, 4)];
  }

  /** A word of the header that is filled in later. */
  class PatchWord {
    const offset: nat
    const file: OutFile

    /** Notes the position and writes a placeholder. */
    constructor (file: OutFile, ghost w: seq<nat>)
      requires At(file, w, [])
      modifies file
      ensures this.file == file && offset == 4 * |w|
      ensures At(file, w + [PLACEHOLDER], [])
    {
      this.file := file;
      offset := file.pos;
      new;
      hide Words;
      WordsLength(w);
      WordsMore(w, PLACEHOLDER);
      PlaceholderBytes();
      assert file.bytes[..file.pos] == file.bytes;
      file.Write([0xcc, 0xdd, 0xee, 0xff]);
    }

    /** Fills the word in and returns to where the file was. */
    method Update(value: nat, ghost w: seq<nat>, ghost i: nat, ghost body: seq<Byte>)
      requires At(file, w, body) && i < |w| && offset == 4 * i
      modifies file
      ensures At(file, w[i := value], body)
    {
      hide Words;
      Patched(w, i, value, body);
      WordsLength(w[i := value]);
      var pos := file.pos;
      file.Seek(offset);
      file.Write(LittleEndian(value, 4));
      file.Seek(pos);
    }
  }

  lemma PlaceholderBytes()
    ensures LittleEndian(PLACEHOLDER, 4) == [0xcc, 0xdd, 0xee, 0xff]
  {
  }

  /** Writes one word of the header. */
  method HeaderElem(f: OutFile, n: nat, ghost w: seq<nat>)
    requires At(f, w, [])
    modifies f
    ensures At(f, w + [n], [])
  {
    hide Words;
    WordsMore(w, n);
    assert f.bytes[..f.pos] == f.bytes;
    f.Write(LittleEndian(n, 4));
  }

  method Append(f: OutFile, s: seq<Byte>, ghost w: seq<nat>, ghost body: seq<Byte>)
    requires At(f, w, body)
    modifies f
    ensures At(f, w, body + s)
  {
    hide Words;
    f.Write(s);
  }

  // ----- the writer

  function InitialWords(): (w: seq<nat>)
    ensures |w| == 12
  {
    [0xcace51af, 2, PLACEHOLDER, PLACEHOLDER, PLACEHOLDER, PLACEHOLDER, PLACEHOLDER, PLACEHOLDER, PLACEHOLDER, 0, 0, 0]
  }

  /** The patch word is word i of this file's header. */
  ghost predicate IsWord(p: PatchWord, f: OutFile, i: nat) {
    p.file == f && p.offset == 4 * i
  }

  method WriteHeader(f: OutFile)
    returns (moduleOffset: PatchWord, moduleCount: PatchWord, moduleStr: PatchWord, frameOffset: PatchWord,
             frameCount: PatchWord, statsOffset: PatchWord, statsCount: PatchWord)
    requires f.bytes == [] && f.pos == 0
    modifies f
    ensures At(f, InitialWords(), [])
    ensures IsWord(moduleOffset, f, 2) && IsWord(moduleCount, f, 3) && IsWord(moduleStr, f, 4)
      && IsWord(frameOffset, f, 5)
    ensures IsWord(frameCount, f, 6) && IsWord(statsOffset, f, 7) && IsWord(statsCount, f, 8)
  {
    hide *;
    Opened(f);
    ghost var w: seq<nat> := [];
    HeaderElem(f, 0xcace51af, w);
    HeaderElem(f, 2, w + [0xcace51af]);
    w := w + [0xcace51af] + [2];
    moduleOffset := new PatchWord(f, w);
    moduleCount := new PatchWord(f, w + [PLACEHOLDER]);
    w := w + [PLACEHOLDER] + [PLACEHOLDER];
    moduleStr := new PatchWord(f, w);
    frameOffset := new PatchWord(f, w + [PLACEHOLDER]);
    w := w + [PLACEHOLDER] + [PLACEHOLDER];
    frameCount := new PatchWord(f, w);
    statsOffset := new PatchWord(f, w + [PLACEHOLDER]);
    w := w + [PLACEHOLDER] + [PLACEHOLDER];
    statsCount := new PatchWord(f, w);
    w := w + [PLACEHOLDER];
    HeaderElem(f, 0, w);
    HeaderElem(f, 0, w + [0]);
    HeaderElem(f, 0, w + [0] + [0]);
    WordsAre(w + [0] + [0] + [0]);
    InFile(moduleOffset, f, 2);
    InFile(moduleCount, f, 3);
    InFile(moduleStr, f, 4);
    InFile(frameOffset, f, 5);
    InFile(frameCount, f, 6);
    InFile(statsOffset, f, 7);
    InFile(statsCount, f, 8);
  }

  lemma Opened(f: OutFile)
    requires f.bytes == [] && f.pos == 0
    ensures At(f, [], [])
  {
  }

  lemma WordsAre(w: seq<nat>)
    requires var p := PLACEHOLDER;
      w == [] + [0xcace51af] + [2] + [p] + [p] + [p] + [p] + [p] + [p] + [p] + [0] + [0] + [0]
    ensures w == InitialWords()
  {
  }

  lemma InFile(p: PatchWord, f: OutFile, i: nat)
    ensures IsWord(p, f, i) <==> p.file == f && p.offset == 4 * i
  {
  }

  lemma NoWords()
    ensures Words([]) == []
  {
  }

  /** Zeros up to the next multiple of eight. */
  method Align(f: OutFile, ghost w: seq<nat>, ghost body: seq<Byte>)
    requires At(f, w, body) && |w| == 12
    modifies f
    ensures At(f, w, body + Padding(HEADER + |body|)) && f.pos % 8 == 0
  {
    Position(f, w, body);
    Append(f, Padding(f.pos), w, body);
    Position(f, w, body + Padding(HEADER + |body|));
  }

  lemma Position(f: OutFile, w: seq<nat>, body: seq<Byte>)
    requires At(f, w, body) && |w| == 12
    ensures f.pos == HEADER + |body|
  {
    hide Words;
    WordsLength(w);
  }

  /** The module table; its last column says where each name will start. */
  method WriteModules(f: OutFile, modules: seq<ModuleInfo>, ghost w: seq<nat>)
    requires At(f, w, [])
    modifies f
    ensures At(f, w, Flatten(ModuleRows(modules, |modules|)))
  {
    hide *;
    NoRows(modules);
    var strSize := 0;
    for i := 0 to |modules|
      invariant At(f, w, Flatten(ModuleRows(modules, i))) && strSize == NameOffset(modules, i)
    {
      ghost var body := Flatten(ModuleRows(modules, i));
      var m := modules[i];
      Append(f, LittleEndian(m.base, 8), w, body);
      Append(f, LittleEndian(m.segment, 8), w, body + LittleEndian(m.base, 8));
      Append(f, LittleEndian(m.size, 4), w, body + LittleEndian(m.base, 8) + LittleEndian(m.segment, 8));
      Append(f, LittleEndian(strSize, 4), w,
             body + LittleEndian(m.base, 8) + LittleEndian(m.segment, 8) + LittleEndian(m.size, 4));
      NextModule(modules, i);
      strSize := strSize + |m.name| + 1;
    }
  }

  lemma NoRows(modules: seq<ModuleInfo>)
    ensures Flatten(ModuleRows(modules, 0)) == [] && Flatten(NameRows(modules, 0)) == [] && NameOffset(modules, 0) == 0
  {
  }

  lemma NextModule(modules: seq<ModuleInfo>, i: nat)
    requires i < |modules|
    ensures var m, body := modules[i], Flatten(ModuleRows(modules, i));
      body + LittleEndian(m.base, 8) + LittleEndian(m.segment, 8) + LittleEndian(m.size, 4)
      + LittleEndian(NameOffset(modules, i), 4) == Flatten(ModuleRows(modules, i + 1))
    ensures NameOffset(modules, i + 1) == NameOffset(modules, i) + |modules[i].name| + 1
  {
    hide LittleEndian;
    assert ModuleRows(modules, i + 1)[..i] == ModuleRows(modules, i);
  }

  method WriteNames(f: OutFile, modules: seq<ModuleInfo>, ghost w: seq<nat>, ghost body: seq<Byte>)
    requires At(f, w, body)
    modifies f
    ensures At(f, w, body + Flatten(NameRows(modules, |modules|)))
  {
    hide *;
    NoRows(modules);
    assert body + [] == body;
    for i := 0 to |modules|
      invariant At(f, w, body + Flatten(NameRows(modules, i)))
    {
      Append(f, modules[i].name + [0], w, body + Flatten(NameRows(modules, i)));
      NextName(modules, i);
      assert body + Flatten(NameRows(modules, i)) + (modules[i].name + [0]) ==
        body + (Flatten(NameRows(modules, i)) + (modules[i].name + [0]));
    }
  }

  lemma NextName(modules: seq<ModuleInfo>, i: nat)
    requires i < |modules|
    ensures Flatten(NameRows(modules, i + 1)) == Flatten(NameRows(modules, i)) + (modules[i].name + [0])
  {
    assert NameRows(modules, i + 1)[..i] == NameRows(modules, i);
  }

  method WriteRecords(f: OutFile, records: seq<Record>, ghost w: seq<nat>, ghost body: seq<Byte>)
    requires At(f, w, body)
    modifies f
    ensures At(f, w, body + Flatten(RecordRows(records, |records|)))
  {
    hide *;
    NoRecords(records);
    assert body + [] == body;
    for i := 0 to |records|
      invariant At(f, w, body + Flatten(RecordRows(records, i)))
    {
      ghost var b := body + Flatten(RecordRows(records, i));
      var r := records[i];
      Append(f, LittleEndian(r.rip, 8), w, b);
      Append(f, LittleEndian(r.stack, 4), w, b + LittleEndian(r.rip, 8));
      Append(f, Words(r.stats), w, b + LittleEndian(r.rip, 8) + LittleEndian(r.stack, 4));
      Append(f, LittleEndian(0, 4), w, b + LittleEndian(r.rip, 8) + LittleEndian(r.stack, 4) + Words(r.stats));
      RowIs(r);
      NextRecord(records, i);
      SumOfParts(b, LittleEndian(r.rip, 8), LittleEndian(r.stack, 4), Words(r.stats), LittleEndian(0, 4));
      assert body + Flatten(RecordRows(records, i)) + RecordRow(r) ==
        body + (Flatten(RecordRows(records, i)) + RecordRow(r));
    }
  }

  lemma SumOfParts(b: seq<Byte>, x: seq<Byte>, y: seq<Byte>, z: seq<Byte>, t: seq<Byte>)
    ensures b + x + y + z + t == b + (x + (y + z + t))
  {
  }

  lemma RowIs(r: Record)
    ensures RecordRow(r) == LittleEndian(r.rip, 8) + (LittleEndian(r.stack, 4) + Words(r.stats) + LittleEndian(0, 4))
  {
    hide LittleEndian;
    NoWords();
    WordsMore([], r.stack);
    WordsConcat([r.stack], r.stats);
    WordsMore([r.stack] + r.stats, 0);
    hide Words;
    assert [] + [r.stack] == [r.stack] && [] + LittleEndian(r.stack, 4) == LittleEndian(r.stack, 4);
  }

  lemma NoRecords(records: seq<Record>)
    ensures Flatten(RecordRows(records, 0)) == []
  {
  }

  lemma NextRecord(records: seq<Record>, i: nat)
    requires i < |records|
    ensures Flatten(RecordRows(records, i + 1)) == Flatten(RecordRows(records, i)) + RecordRow(records[i])
  {
    hide RecordRow;
    assert RecordRows(records, i + 1)[..i] == RecordRows(records, i);
  }

  /** The module section, if there are modules at all, and its three header words. */
  method WriteModuleSection(f: OutFile, modules: seq<ModuleInfo>, moduleOffset: PatchWord, moduleCount: PatchWord,
                            moduleStr: PatchWord)
    returns (ghost w: seq<nat>)
    requires At(f, InitialWords(), [])
    requires IsWord(moduleOffset, f, 2) && IsWord(moduleCount, f, 3) && IsWord(moduleStr, f, 4)
    modifies f
    ensures w == if modules == [] then InitialWords()
                 else InitialWords()[2 := HEADER][3 := |modules|][4 := HEADER + 24 * |modules|]
    ensures At(f, w, ModuleSection(modules))
  {
    w := InitialWords();
    hide Words, Flatten, InitialWords;
    if |modules| > 0 {
      Align(f, w, []);
      Position(f, w, []);
      assert Padding(HEADER) == [] && [] + Padding(HEADER) == [];
      moduleOffset.Update(f.pos, w, 2, []);
      w := w[2 := HEADER];
      moduleCount.Update(|modules|, w, 3, []);
      w := w[3 := |modules|];
      WriteModules(f, modules, w);
      ghost var table := Flatten(ModuleRows(modules, |modules|));
      FlattenLength(ModuleRows(modules, |modules|), 24);
      Position(f, w, table);
      moduleStr.Update(f.pos, w, 4, table);
      w := w[4 := HEADER + 24 * |modules|];
      WriteNames(f, modules, w, table);
    } else {
      NoRows(modules);
      assert modules == [];
    }
  }

  /** Writes a whole capture into an empty file. */
  method WriteCapture(f: OutFile, c: Capture)
    requires f.bytes == [] && f.pos == 0
    modifies f
    ensures f.bytes == Image(c)
  {
    hide *;
    var moduleOffset, moduleCount, moduleStr, frameOffset, frameCount, statsOffset, statsCount := WriteHeader(f);
    InFile(frameOffset, f, 5);
    InFile(frameCount, f, 6);
    InFile(statsOffset, f, 7);
    InFile(statsCount, f, 8);
    ghost var w := WriteModuleSection(f, c.modules, moduleOffset, moduleCount, moduleStr);
    ghost var body := ModuleSection(c.modules);
    Align(f, w, body);
    ghost var padding := Padding(HEADER + |body|);
    body := body + padding;
    Position(f, w, body);
    frameOffset.Update(f.pos, w, 5, body);
    w := w[5 := HEADER + |body|];
    frameCount.Update(|c.frames|, w, 6, body);
    w := w[6 := |c.frames|];
    ghost var frames := Flatten(FrameRows(c.frames, |c.frames|));
    Append(f, Flatten(FrameRows(c.frames, |c.frames|)), w, body);
    body := body + frames;
    Align(f, w, body);
    FramesStayAligned(c);
    assert body + Padding(HEADER + |body|) == body;
    Position(f, w, body);
    statsOffset.Update(f.pos, w, 7, body);
    w := w[7 := HEADER + |body|];
    statsCount.Update(|c.records|, w, 8, body);
    w := w[8 := |c.records|];
    WriteRecords(f, c.records, w, body);
    BytesAre(f, w, body + Flatten(RecordRows(c.records, |c.records|)));
    ImageIs(c, w);
  }

  lemma BytesAre(f: OutFile, w: seq<nat>, body: seq<Byte>)
    requires At(f, w, body)
    ensures f.bytes == Words(w) + body
  {
  }

  lemma FramesStayAligned(c: Capture)
    ensures var m := ModuleSection(c.modules);
      var b := m + Padding(HEADER + |m|) + Flatten(FrameRows(c.frames, |c.frames|));
      (HEADER + |b|) % 8 == 0 && Padding(HEADER + |b|) == []
  {
    hide ModuleSection;
    FlattenLength(FrameRows(c.frames, |c.frames|), 8);
  }

  /** The words as patched are the header of the image. */
  lemma ImageIs(c: Capture, w: seq<nat>)
    requires var m := ModuleSection(c.modules);
      var b := m + Padding(HEADER + |m|);
      var before := if c.modules == [] then InitialWords()
                    else InitialWords()[2 := HEADER][3 := |c.modules|][4 := HEADER + 24 * |c.modules|];
      w == before[5 := HEADER + |b|][6 := |c.frames|]
                 [7 := HEADER + |b + Flatten(FrameRows(c.frames, |c.frames|))|][8 := |c.records|]
    ensures var m := ModuleSection(c.modules);
      Words(w) + (m + Padding(HEADER + |m|)
                  + Flatten(FrameRows(c.frames, |c.frames|)) + Flatten(RecordRows(c.records, |c.records|)))
      == Image(c)
  {
    FlattenLength(FrameRows(c.frames, |c.frames|), 8);
    hide Words, ModuleSection, Padding, Flatten;
    assert w == HeaderWords(c);
  }
}
