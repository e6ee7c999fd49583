/** Resolved symbols as the trace file keeps them: a pool of zero-terminated strings and records sorted by
    address, and how both are read back. */
module Symbols {
  import opened Terminated

  const NUL: char := '\0'

  datatype Option<+T> = None | Some(value: T)

  /** What symbol resolution found out about an address. */
  datatype ResolvedSymbol = ResolvedSymbol(rip: nat, symbolName: string, fileName: string,
                                           moduleIndex: nat, line: nat, displacement: nat)

  /** The same in the file, with strings replaced by offsets. */
  datatype SerializedSymbol = SerializedSymbol(rip: nat, fileName: nat, symbolName: nat,
                                               moduleIndex: nat, line: nat, displacement: nat)

  // ----- what fits the fields of the file

  const UNIT: nat := 0x1_0000
  const WORD32: nat := 0x1_0000_0000
  const WORD64: nat := 0x1_0000_0000_0000_0000

  /** A string of 16-bit units. */
  predicate FitsUnits(s: string) {
    forall k :: 0 <= k < |s| ==> s[k] as nat < UNIT
  }

  predicate InRange(r: ResolvedSymbol) {
    && r.rip < WORD64 && r.moduleIndex < WORD32 && r.line < WORD32 && r.displacement < WORD32
    && FitsUnits(r.symbolName) && FitsUnits(r.fileName)
  }

  predicate FitsSymbol(s: SerializedSymbol) {
    && s.rip < WORD64 && s.fileName < WORD32 && s.symbolName < WORD32 && s.moduleIndex < WORD32
    && s.line < WORD32 && s.displacement < WORD32
  }

  /** Room for the text when no two strings are the same. */
  function TextSize(resolved: seq<ResolvedSymbol>): nat {
    if resolved == [] then 1
    else
      var last := resolved[|resolved| - 1];
      TextSize(resolved[..|resolved| - 1]) + |last.symbolName| + 1 + |last.fileName| + 1
  }

  // ----- the string pool

  /** The characters up to the next zero. */
  function StringAt(text: string, offset: nat): string {
    ReadFrom(text, NUL, offset)
  }

  class StringPool {
    var text: string
    var lookup: map<string, nat>

    /** Every string on record is written where the record says, never at offset 0. */
    ghost predicate Valid()
      reads this
    {
      && text != "" && text[|text| - 1] == NUL
      && forall s :: s in lookup ==> lookup[s] > 0 && Recorded(text, NUL, lookup[s], s)
    }

    constructor ()
      ensures Valid() && lookup == map[] && text == [NUL]
    {
      text, lookup := [NUL], map[];
    }

    /** The offset of a string, which is written at the end if it is new. */
    method Intern(s: string) returns (offset: nat)
      requires Valid()
      modifies this
      ensures Valid() && (text == old(text) || text == old(text) + s + [NUL])
      ensures s in lookup && offset == lookup[s]
      ensures forall t :: t in old(lookup) ==> t in lookup && lookup[t] == old(lookup)[t]
    {
      if s in lookup {
        return lookup[s];
      }
      offset := |text|;
      ghost var before := text;
      for i := 0 to |s|
        invariant text == before + s[..i]
        invariant lookup == old(lookup)
      {
        text := text + [s[i]];
      }
      text := text + [NUL];
      assert text == before + (s + [NUL]);
      lookup := lookup[s := offset];
    }
  }

  // ----- the records

  predicate Sorted(symbols: seq<SerializedSymbol>) {
    forall i, j :: 0 <= i < j < |symbols| ==> symbols[i].rip <= symbols[j].rip
  }

  /** The first record of an address. */
  function Lookup(symbols: seq<SerializedSymbol>, rip: nat): Option<SerializedSymbol> {
    if symbols == [] then None
    else if symbols[0].rip == rip then Some(symbols[0])
    else Lookup(symbols[1..], rip)
  }

  lemma {:induction false} LookupFirst(symbols: seq<SerializedSymbol>, rip: nat, k: nat)
    requires k <= |symbols| && forall i :: 0 <= i < k ==> symbols[i].rip != rip
    requires k < |symbols| ==> symbols[k].rip >= rip
    requires Sorted(symbols)
    ensures Lookup(symbols, rip) == if k < |symbols| && symbols[k].rip == rip then Some(symbols[k]) else None
  {
    if symbols == [] {
    } else if k > 0 {
      LookupFirst(symbols[1..], rip, k - 1);
    } else if symbols[0].rip != rip {
      LookupNone(symbols, rip);
    }
  }

  lemma {:induction false} LookupNone(symbols: seq<SerializedSymbol>, rip: nat)
    requires forall i :: 0 <= i < |symbols| ==> symbols[i].rip != rip
    ensures Lookup(symbols, rip) == None
  {
    if symbols != [] {
      LookupNone(symbols[1..], rip);
    }
  }

  /** Binary search for an address. */
  method FindSymbol(symbols: seq<SerializedSymbol>, rip: nat) returns (r: Option<SerializedSymbol>)
    requires Sorted(symbols)
    ensures r == Lookup(symbols, rip)
  {
    var first: nat, count: nat := 0, |symbols|;
    while count > 0
      invariant first + count <= |symbols|
      invariant forall i :: 0 <= i < first ==> symbols[i].rip < rip
      invariant first + count < |symbols| ==> symbols[first + count].rip >= rip
    {
      var step := count / 2;
      if symbols[first + step].rip < rip {
        first := first + step + 1;
        count := count - step - 1;
      } else {
        count := step;
      }
    }
    LookupFirst(symbols, rip, first);
    if first == |symbols| || symbols[first].rip != rip {
      return None;
    }
    return Some(symbols[first]);
  }

  function InsertSorted(sorted: seq<SerializedSymbol>, x: SerializedSymbol): seq<SerializedSymbol> {
    if sorted == [] || sorted[|sorted| - 1].rip <= x.rip then sorted + [x]
    else InsertSorted(sorted[..|sorted| - 1], x) + [sorted[|sorted| - 1]]
  }

  /** The records in order of their addresses. */
  function SortByRip(symbols: seq<SerializedSymbol>): seq<SerializedSymbol> {
    if symbols == [] then [] else InsertSorted(SortByRip(symbols[..|symbols| - 1]), symbols[|symbols| - 1])
  }

  lemma {:induction false} InsertSortedSorts(sorted: seq<SerializedSymbol>, x: SerializedSymbol)
    requires Sorted(sorted)
    ensures Sorted(InsertSorted(sorted, x)) && |InsertSorted(sorted, x)| == |sorted| + 1
    ensures forall i :: 0 <= i <= |sorted| ==> InsertSorted(sorted, x)[i] == x || InsertSorted(sorted, x)[i] in sorted
  {
    if !(sorted == [] || sorted[|sorted| - 1].rip <= x.rip) {
      InsertSortedSorts(sorted[..|sorted| - 1], x);
    }
  }

  lemma {:induction false} InsertSortedKeeps(sorted: seq<SerializedSymbol>, x: SerializedSymbol)
    ensures multiset(InsertSorted(sorted, x)) == multiset(sorted) + multiset{x}
  {
    if !(sorted == [] || sorted[|sorted| - 1].rip <= x.rip) {
      InsertSortedKeeps(sorted[..|sorted| - 1], x);
      assert sorted == sorted[..|sorted| - 1] + [sorted[|sorted| - 1]];
    } else {
      assert multiset(sorted + [x]) == multiset(sorted) + multiset{x};
    }
  }

  lemma {:induction false} SortByRipSorts(symbols: seq<SerializedSymbol>)
    ensures Sorted(SortByRip(symbols)) && multiset(SortByRip(symbols)) == multiset(symbols)
  {
    hide InsertSorted, Sorted;
    if symbols == [] {
      NothingToSort();
    } else {
      var init, last := symbols[..|symbols| - 1], symbols[|symbols| - 1];
      SortByRipSorts(init);
      InsertSortedSorts(SortByRip(init), last);
      InsertSortedKeeps(SortByRip(init), last);
      assert symbols == init + [last];
    }
  }

  lemma NothingToSort()
    ensures Sorted([])
  {
  }

  lemma SortByRipMembers(symbols: seq<SerializedSymbol>, x: SerializedSymbol)
    ensures x in SortByRip(symbols) <==> x in symbols
  {
    SortByRipSorts(symbols);
    assert x in multiset(SortByRip(symbols)) <==> x in multiset(symbols);
  }

  /** The record says about its address what resolution found out. */
  ghost predicate Tells(text: string, out: SerializedSymbol, r: ResolvedSymbol) {
    && out.rip == r.rip && out.moduleIndex == r.moduleIndex && out.line == r.line && out.displacement == r.displacement
    && 0 < out.symbolName < |text| && StringAt(text, out.symbolName) == UpTo(r.symbolName, NUL)
    && 0 < out.fileName < |text| && StringAt(text, out.fileName) == UpTo(r.fileName, NUL)
  }

  ghost predicate Serialized(pool: StringPool, out: SerializedSymbol, r: ResolvedSymbol)
    reads pool
  {
    && r.symbolName in pool.lookup && r.fileName in pool.lookup
    && out == SerializedSymbol(r.rip, pool.lookup[r.fileName], pool.lookup[r.symbolName], r.moduleIndex, r.line,
       r.displacement)
  }

  lemma {:induction false} LookupIs(symbols: seq<SerializedSymbol>, x: SerializedSymbol)
    requires x in symbols && forall y :: y in symbols && y.rip == x.rip ==> y == x
    ensures Lookup(symbols, x.rip) == Some(x)
  {
    if symbols[0].rip != x.rip {
      LookupIs(symbols[1..], x);
    }
  }

  lemma {:induction false} LookupFinds(symbols: seq<SerializedSymbol>, rip: nat)
    requires Lookup(symbols, rip).Some?
    ensures Lookup(symbols, rip).value in symbols && Lookup(symbols, rip).value.rip == rip
  {
    if symbols[0].rip != rip {
      LookupFinds(symbols[1..], rip);
    }
  }

  /** A record and what it was made from. */
  ghost predicate Pairs(pool: StringPool, out: seq<SerializedSymbol>, resolved: seq<ResolvedSymbol>)
    reads pool
  {
    |out| == |resolved| && forall i :: 0 <= i < |out| ==> Serialized(pool, out[i], resolved[i])
  }

  /** The text is no longer than its strings, and made of their characters. */
  ghost predicate Fitting(text: string, resolved: seq<ResolvedSymbol>) {
    && |text| <= TextSize(resolved)
    && ((forall i :: 0 <= i < |resolved| ==> InRange(resolved[i])) ==> FitsUnits(text))
  }

  /** The records before sorting. */
  method InternNames(resolved: seq<ResolvedSymbol>, pool: StringPool) returns (symbols: seq<SerializedSymbol>)
    requires pool.Valid() && pool.text == [NUL]
    modifies pool
    ensures pool.Valid() && Pairs(pool, symbols, resolved) && Fitting(pool.text, resolved)
  {
    hide TextSize, FitsUnits, InRange;
    symbols := [];
    NothingFits();
    for i := 0 to |resolved|
      invariant pool.Valid() && Pairs(pool, symbols, resolved[..i]) && Fitting(pool.text, resolved[..i])
    {
      var r := resolved[i];
      ghost var before := pool.text;
      var symbolName := pool.Intern(r.symbolName);
      ghost var between := pool.text;
      var fileName := pool.Intern(r.fileName);
      symbols := symbols + [SerializedSymbol(r.rip, fileName, symbolName, r.moduleIndex, r.line, r.displacement)];
      assert resolved[..i + 1][..i] == resolved[..i];
      StillFits(resolved[..i + 1], before, between, pool.text);
    }
    assert resolved[..|resolved|] == resolved;
  }

  lemma NothingFits()
    ensures Fitting([NUL], [])
  {
  }

  lemma StillFits(resolved: seq<ResolvedSymbol>, before: string, between: string, after: string)
    requires resolved != [] && Fitting(before, resolved[..|resolved| - 1])
    requires var r := resolved[|resolved| - 1];
      && (between == before || between == before + r.symbolName + [NUL])
      && (after == between || after == between + r.fileName + [NUL])
    ensures Fitting(after, resolved)
  {
    assert forall i :: 0 <= i < |resolved| - 1 ==> resolved[..|resolved| - 1][i] == resolved[i];
  }

  /** Records of what is in range fit their fields. */
  lemma SerializedFits(pool: StringPool, out: SerializedSymbol, r: ResolvedSymbol)
    requires pool.Valid() && Serialized(pool, out, r) && InRange(r) && |pool.text| < WORD32
    ensures FitsSymbol(out)
  {
  }

  lemma SerializedTells(pool: StringPool, out: SerializedSymbol, r: ResolvedSymbol)
    requires pool.Valid() && Serialized(pool, out, r)
    ensures Tells(pool.text, out, r)
  {
    RecordedReadsBack(pool.text, NUL, out.symbolName, r.symbolName);
    RecordedReadsBack(pool.text, NUL, out.fileName, r.fileName);
  }

  lemma SortedPairs(pool: StringPool, out: seq<SerializedSymbol>, resolved: seq<ResolvedSymbol>, i: nat)
    requires Pairs(pool, out, resolved) && i < |resolved|
    requires forall i, j :: 0 <= i < j < |resolved| ==> resolved[i].rip != resolved[j].rip
    ensures Lookup(SortByRip(out), resolved[i].rip) == Some(out[i])
  {
    var sorted := SortByRip(out);
    SortByRipMembers(out, out[i]);
    assert Serialized(pool, out[i], resolved[i]);
    forall y | y in sorted && y.rip == out[i].rip
      ensures y == out[i]
    {
      SortByRipMembers(out, y);
      var j :| 0 <= j < |out| && out[j] == y;
      assert Serialized(pool, out[j], resolved[j]);
    }
    LookupIs(sorted, out[i]);
  }

  ghost predicate Found(symbols: seq<SerializedSymbol>, text: string, r: ResolvedSymbol) {
    var s := Lookup(symbols, r.rip);
    s.Some? && Tells(text, s.value, r)
  }

  ghost predicate WasResolved(resolved: seq<ResolvedSymbol>, rip: nat) {
    exists i :: 0 <= i < |resolved| && resolved[i].rip == rip
  }

  /** Looking up finds exactly the resolved addresses, each with what resolution found out about it. */
  ghost predicate Answers(symbols: seq<SerializedSymbol>, text: string, resolved: seq<ResolvedSymbol>) {
    && (forall i :: 0 <= i < |resolved| ==> Found(symbols, text, resolved[i]))
    && (forall rip :: Lookup(symbols, rip).Some? <==> WasResolved(resolved, rip))
  }

  /** Interns the strings of all resolved symbols and sorts the records.  When no address is resolved twice,
      looking an address up finds a record exactly when it was resolved, and the record tells the same.  What
      is in range stays in range. */
  method SerializeSymbols(resolved: seq<ResolvedSymbol>) returns (symbols: seq<SerializedSymbol>, text: string)
    requires forall i, j :: 0 <= i < j < |resolved| ==> resolved[i].rip != resolved[j].rip
    ensures Sorted(symbols) && |symbols| == |resolved| && text != "" && text[|text| - 1] == NUL
    ensures Answers(symbols, text, resolved) && Fitting(text, resolved)
    ensures (forall i :: 0 <= i < |resolved| ==> InRange(resolved[i])) && TextSize(resolved) < WORD32 ==>
      forall i :: 0 <= i < |symbols| ==> FitsSymbol(symbols[i])
  {
    hide Lookup, SortByRip, Tells, FitsSymbol, InRange, TextSize, FitsUnits;
    var pool := new StringPool();
    var unsorted := InternNames(resolved, pool);
    symbols, text := SortByRip(unsorted), pool.text;
    SortByRipSorts(unsorted);
    assert |symbols| == |multiset(symbols)|;
    forall i: nat | i < |resolved|
      ensures Found(symbols, text, resolved[i]) && Lookup(symbols, resolved[i].rip).Some?
    {
      SortedPairs(pool, unsorted, resolved, i);
      SerializedTells(pool, unsorted[i], resolved[i]);
    }
    forall i: nat | i < |symbols|
      ensures exists j :: 0 <= j < |resolved| && Serialized(pool, symbols[i], resolved[j])
    {
      SortByRipMembers(unsorted, symbols[i]);
      var j :| 0 <= j < |unsorted| && unsorted[j] == symbols[i];
      assert Serialized(pool, unsorted[j], resolved[j]);
    }
    forall rip | Lookup(symbols, rip).Some?
      ensures WasResolved(resolved, rip)
    {
      LookupFinds(symbols, rip);
    }
    if (forall i :: 0 <= i < |resolved| ==> InRange(resolved[i])) && TextSize(resolved) < WORD32 {
      forall i: nat | i < |symbols|
        ensures FitsSymbol(symbols[i])
      {
        var j :| 0 <= j < |resolved| && Serialized(pool, symbols[i], resolved[j]);
        SerializedFits(pool, symbols[i], resolved[j]);
      }
    }
  }
}
