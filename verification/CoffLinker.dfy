/** The linker that collects sections, relocations and symbols and writes them as an object file. */
module CoffLinking {
  import opened Options
  import opened Bytes
  import opened ObjectFile

  /** A relocation while its symbol is still a name. */
  datatype Pending = Pending(offset: nat, symbolName: seq<Byte>, kind: nat, sectionIndex: nat)

  /** Code that is put at `pos`, to be completed with the address of a symbol. */
  datatype Patch = Patch(pos: nat, call: seq<Byte>, symbolName: seq<Byte>)

  const TEXT: seq<Byte> := [46, 116, 101, 120, 116]
  const RDATA: seq<Byte> := [46, 114, 100, 97, 116, 97]
  const RDATA_SYMBOL: seq<Byte> := [95, 95, 101, 99, 112, 112, 115, 95, 114, 100, 97, 116, 97]
  const SCN_TEXT: nat := 0x60000020
  const SCN_RDATA: nat := 0x40000040
  const REL_REL32: nat := 4
  const EXTERNAL: nat := 2
  const STATIC: nat := 3

  type Offsets = map<seq<Byte>, nat>

  // ----- code and its patches -----

  /** The first two bytes of the call are kept and the rest is zero, as far as there is room. */
  function Patched(data: seq<Byte>, pos: nat, call: seq<Byte>): (r: seq<Byte>)
    ensures |r| == |data|
  {
    seq(|data|, k requires 0 <= k < |data| =>
      if pos <= k < pos + |call| then (if k - pos < 2 then call[k - pos] else 0) else data[k])
  }

  function PatchAll(data: seq<Byte>, patches: seq<Patch>): (r: seq<Byte>)
    ensures |r| == |data|
    decreases |patches|
  {
    if patches == [] then data else PatchAll(Patched(data, patches[0].pos, patches[0].call), patches[1..])
  }

  /** A patched call: its first two bytes, zeros behind them, and the code around it as it was. */
  lemma PatchedCall(data: seq<Byte>, pos: nat, call: seq<Byte>)
    requires |call| >= 2 && pos + |call| <= |data|
    ensures Patched(data, pos, call) == data[..pos] + call[..2] + Zeros(|call| - 2) + data[pos + |call|..]
  {
  }

  /** The patch covers this byte. */
  ghost predicate Covers(p: Patch, k: nat) {
    p.pos <= k < p.pos + |p.call|
  }

  /** With patches that do not meet, every byte is that of its patch, or as it was. */
  lemma {:induction false} PatchedApart(data: seq<Byte>, patches: seq<Patch>, k: nat)
    requires k < |data|
    requires forall i, j :: 0 <= i < j < |patches| ==> !(Covers(patches[i], k) && Covers(patches[j], k))
    ensures (forall i :: 0 <= i < |patches| ==> !Covers(patches[i], k)) ==> PatchAll(data, patches)[k] == data[k]
    ensures forall i :: 0 <= i < |patches| && Covers(patches[i], k) ==>
              PatchAll(data, patches)[k]
              == if k < patches[i].pos + 2 then patches[i].call[k - patches[i].pos] else 0
    decreases |patches|
  {
    hide Covers;
    if patches != [] {
      var first, rest := patches[0], patches[1..];
      forall i | 0 <= i < |rest|
        ensures rest[i] == patches[i + 1]
      {
      }
      PatchedApart(Patched(data, first.pos, first.call), rest, k);
      PatchedAt(data, first, k);
    }
  }

  lemma PatchedAt(data: seq<Byte>, p: Patch, k: nat)
    requires k < |data|
    ensures Covers(p, k) ==> Patched(data, p.pos, p.call)[k] == if k < p.pos + 2 then p.call[k - p.pos] else 0
    ensures !Covers(p, k) ==> Patched(data, p.pos, p.call)[k] == data[k]
  {
  }

  ghost predicate IsName(symbols: seq<Symbol>, name: seq<Byte>) {
    exists j :: 0 <= j < |symbols| && symbols[j].name == name
  }

  lemma LongerNames(symbols: seq<Symbol>, last: Symbol)
    ensures forall n :: IsName(symbols + [last], n) <==> IsName(symbols, n) || n == last.name
  {
    forall n
      ensures IsName(symbols + [last], n) <==> IsName(symbols, n) || n == last.name
    {
      var longer := symbols + [last];
      assert longer[|symbols|] == last;
      if j :| 0 <= j < |symbols| && symbols[j].name == n {
        assert longer[j].name == n;
      }
    }
  }

  ghost predicate NamesAgree(symbols: seq<Symbol>, offsets: Offsets)
    requires WithinSymbols(offsets, symbols)
  {
    forall i :: 0 <= i < |symbols| ==>
      symbols[i].name in offsets && symbols[offsets[symbols[i].name]].name == symbols[i].name
  }

  ghost predicate WithinSymbols(offsets: Offsets, symbols: seq<Symbol>) {
    forall n :: n in offsets ==> offsets[n] < |symbols|
  }

  function CallRelocation(p: Patch, symbols: seq<Symbol>, offsets: Offsets): Pending
    requires p.symbolName in offsets && WithinSymbols(offsets, symbols)
  {
    Pending(p.pos + (if |p.call| == 6 then 2 else 1), symbols[offsets[p.symbolName]].name, REL_REL32, 0)
  }

  /** The relocations of the patches before the first one whose symbol is unknown. */
  function CallRelocations(patches: seq<Patch>, symbols: seq<Symbol>, offsets: Offsets): seq<Pending>
    requires WithinSymbols(offsets, symbols)
  {
    if patches == [] || patches[0].symbolName !in offsets then []
    else [CallRelocation(patches[0], symbols, offsets)] + CallRelocations(patches[1..], symbols, offsets)
  }

  /** The relocation of a call: relative in 32 bits (4), and for a call of five or six bytes just its last four. */
  ghost predicate RelocatesCall(r: Pending, p: Patch, name: seq<Byte>) {
    r.kind == 4 && r.sectionIndex == 0 && r.symbolName == name
    && (|p.call| == 5 || |p.call| == 6 ==> r.offset + 4 == p.pos + |p.call|)
  }

  /** Every call gets its relocation, in order, for the symbol that is found by its name. */
  lemma {:induction false} CallsAreRelocated(patches: seq<Patch>, symbols: seq<Symbol>, offsets: Offsets)
    requires WithinSymbols(offsets, symbols)
    requires forall k :: 0 <= k < |patches| ==> patches[k].symbolName in offsets
    ensures |CallRelocations(patches, symbols, offsets)| == |patches|
    ensures forall k :: 0 <= k < |patches| ==>
              RelocatesCall(CallRelocations(patches, symbols, offsets)[k], patches[k],
                            symbols[offsets[patches[k].symbolName]].name)
    decreases |patches|
  {
    hide RelocatesCall, CallRelocation;
    if patches != [] {
      CallIsRelocated(patches[0], symbols, offsets);
      CallsAreRelocated(patches[1..], symbols, offsets);
      forall k | 0 < k < |patches|
        ensures RelocatesCall(CallRelocations(patches, symbols, offsets)[k], patches[k],
                              symbols[offsets[patches[k].symbolName]].name)
      {
        assert CallRelocations(patches, symbols, offsets)[k] == CallRelocations(patches[1..], symbols, offsets)[k - 1];
      }
    }
  }

  lemma CallIsRelocated(p: Patch, symbols: seq<Symbol>, offsets: Offsets)
    requires p.symbolName in offsets && WithinSymbols(offsets, symbols)
    ensures RelocatesCall(CallRelocation(p, symbols, offsets), p, symbols[offsets[p.symbolName]].name)
  {
  }

  /** String slots that lie within the code. */
  function StringRelocations(slots: seq<nat>, size: nat): seq<Pending> {
    if slots == [] then []
    else
      (if slots[0] + 4 > size then [] else [Pending(slots[0], RDATA_SYMBOL, REL_REL32, 0)])
      + StringRelocations(slots[1..], size)
  }

  /** Just the slots whose four bytes lie within the code are relocated, against "__ecpps_rdata". */
  lemma {:induction false} SlotsAreRelocated(slots: seq<nat>, size: nat)
    ensures forall k :: 0 <= k < |StringRelocations(slots, size)| ==>
              var r := StringRelocations(slots, size)[k];
              r == Pending(r.offset, [95, 95, 101, 99, 112, 112, 115, 95, 114, 100, 97, 116, 97], 4, 0)
              && r.offset in slots && r.offset + 4 <= size
    ensures forall i :: 0 <= i < |slots| && slots[i] + 4 <= size ==>
              exists k :: 0 <= k < |StringRelocations(slots, size)| && StringRelocations(slots, size)[k].offset == slots[i]
    decreases |slots|
  {
    if slots != [] {
      SlotsAreRelocated(slots[1..], size);
      var first: seq<Pending> := if slots[0] + 4 > size then [] else [Pending(slots[0], RDATA_SYMBOL, REL_REL32, 0)];
      var rest := StringRelocations(slots[1..], size);
      assert StringRelocations(slots, size) == first + rest;
      forall i | 0 <= i < |slots| && slots[i] + 4 <= size
        ensures exists k :: 0 <= k < |first + rest| && (first + rest)[k].offset == slots[i]
      {
        if i == 0 {
          assert (first + rest)[0].offset == slots[0];
        } else {
          assert slots[1..][i - 1] == slots[i];
          var k :| 0 <= k < |rest| && rest[k].offset == slots[i];
          assert (first + rest)[|first| + k] == rest[k];
        }
      }
    }
  }

  // ----- the object file -----

  function RdataIndex(sections: seq<Section>): (i: nat)
    ensures i <= |sections|
  {
    if sections == [] || sections[0].name == RDATA then 0 else 1 + RdataIndex(sections[1..])
  }

  /** The string data replaces the first .rdata section, or becomes the last section. */
  function Owned(sections: seq<Section>, stringData: seq<Byte>): seq<Section> {
    var rdata := Section(RDATA, stringData, SCN_RDATA);
    var i := RdataIndex(sections);
    if i < |sections| then sections[i := rdata] else sections + [rdata]
  }

  function RdataSymbol(sections: seq<Section>): Symbol {
    Symbol(RDATA_SYMBOL, 0, RdataIndex(sections) + 1, 0, STATIC, 0)
  }

  /** The symbol of the string data leads to the section that holds it, which is called ".rdata" and is read-only
      data; the other sections stay as they are. */
  lemma {:induction false} RdataSymbolLeadsToItsData(sections: seq<Section>, stringData: seq<Byte>)
    ensures var owned, symbol := Owned(sections, stringData), RdataSymbol(sections);
            symbol == Symbol([95, 95, 101, 99, 112, 112, 115, 95, 114, 100, 97, 116, 97], 0, symbol.section, 0, 3, 0)
            && 0 < symbol.section <= |owned| && |sections| <= |owned|
            && owned[symbol.section - 1] == Section([46, 114, 100, 97, 116, 97], stringData, 0x40000040)
            && forall i :: 0 <= i < |sections| && i != symbol.section - 1 ==> owned[i] == sections[i]
  {
  }

  function Resolved(r: Pending, offsets: Offsets): Relocation
    requires r.symbolName in offsets
  {
    Relocation(r.offset, offsets[r.symbolName], r.kind)
  }

  ghost predicate AllKnown(pending: seq<Pending>, offsets: Offsets) {
    forall k :: 0 <= k < |pending| ==> pending[k].symbolName in offsets
  }

  /** The relocations of one section, in order. */
  function Grouped(pending: seq<Pending>, offsets: Offsets, section: nat): seq<Relocation>
    requires AllKnown(pending, offsets)
  {
    if pending == [] then []
    else
      (if pending[0].sectionIndex == section then [Resolved(pending[0], offsets)] else [])
      + Grouped(pending[1..], offsets, section)
  }

  function Parts(owned: seq<Section>, pending: seq<Pending>, offsets: Offsets): seq<Part>
    requires AllKnown(pending, offsets)
  {
    seq(|owned|, i requires 0 <= i < |owned| => Part(owned[i], Grouped(pending, offsets, i)))
  }

  /** The relocations of a file with the names that their symbols lead to. */
  function Named(relocations: seq<Relocation>, symbols: seq<Symbol>, section: nat): seq<Option<Pending>> {
    if relocations == [] then []
    else
      var r := relocations[0];
      [if r.symbol < |symbols| then Some(Pending(r.address, symbols[r.symbol].name, r.kind, section)) else None]
      + Named(relocations[1..], symbols, section)
  }

  function OfSection(pending: seq<Pending>, section: nat): seq<Option<Pending>> {
    if pending == [] then []
    else (if pending[0].sectionIndex == section then [Some(pending[0])] else []) + OfSection(pending[1..], section)
  }

  lemma {:induction false} GroupedNames(pending: seq<Pending>, offsets: Offsets, symbols: seq<Symbol>, section: nat)
    requires AllKnown(pending, offsets) && WithinSymbols(offsets, symbols)
    requires forall k :: 0 <= k < |pending| ==> symbols[offsets[pending[k].symbolName]].name == pending[k].symbolName
    ensures Named(Grouped(pending, offsets, section), symbols, section) == OfSection(pending, section)
    decreases |pending|
  {
    if pending != [] {
      GroupedNames(pending[1..], offsets, symbols, section);
      if pending[0].sectionIndex == section {
        assert Grouped(pending, offsets, section)[1..] == Grouped(pending[1..], offsets, section);
      } else {
        assert Grouped(pending, offsets, section) == Grouped(pending[1..], offsets, section);
      }
    }
  }

  // ----- lemmas for the loops -----

  lemma {:induction false} GroupedAppend(before: seq<Pending>, last: Pending, offsets: Offsets, section: nat)
    requires AllKnown(before + [last], offsets) && AllKnown(before, offsets) && last.symbolName in offsets
    ensures Grouped(before + [last], offsets, section)
            == Grouped(before, offsets, section)
               + (if last.sectionIndex == section then [Resolved(last, offsets)] else [])
    decreases |before|
  {
    hide Resolved;
    if before == [] {
      assert (before + [last])[1..] == [];
    } else {
      var tail := before[1..] + [last];
      assert (before + [last])[1..] == tail && (before + [last])[0] == before[0];
      GroupedAppend(before[1..], last, offsets, section);
      var first := if before[0].sectionIndex == section then [Resolved(before[0], offsets)] else [];
      var end := if last.sectionIndex == section then [Resolved(last, offsets)] else [];
      assert first + (Grouped(before[1..], offsets, section) + end) == first + Grouped(before[1..], offsets, section) + end;
    }
  }

  function Flattened(pieces: seq<seq<Byte>>): seq<Byte> {
    if pieces == [] then [] else pieces[0] + Flattened(pieces[1..])
  }

  lemma {:induction false} FlattenedAppend(pieces: seq<seq<Byte>>, last: seq<Byte>)
    ensures Flattened(pieces + [last]) == Flattened(pieces) + last
    decreases |pieces|
  {
    if pieces == [] {
      assert (pieces + [last])[1..] == [];
    } else {
      assert (pieces + [last])[1..] == pieces[1..] + [last];
      FlattenedAppend(pieces[1..], last);
    }
  }

  // ----- the loops -----

  /** The string data in its section, which may have to be added. */
  method OwnSections(sections: seq<Section>, stringData: seq<Byte>) returns (owned: seq<Section>, rdataIndex: nat)
    ensures owned == Owned(sections, stringData) && rdataIndex == RdataIndex(sections)
  {
    owned := sections;
    rdataIndex := 0;
    while rdataIndex < |sections| && sections[rdataIndex].name != RDATA
      invariant rdataIndex <= |sections|
      invariant rdataIndex + RdataIndex(sections[rdataIndex..]) == RdataIndex(sections)
    {
      assert sections[rdataIndex..][1..] == sections[rdataIndex + 1..];
      rdataIndex := rdataIndex + 1;
    }
    var rdata := Section(RDATA, stringData, SCN_RDATA);
    if rdataIndex < |sections| {
      owned := owned[rdataIndex := rdata];
    } else {
      owned := owned + [rdata];
    }
  }

  /** Every relocation goes to its section, with the index of its symbol; a symbol that is not known
      ends the linking. */
  method GroupRelocations(pending: seq<Pending>, offsets: Offsets, count: nat)
    returns (grouped: Option<seq<seq<Relocation>>>)
    requires forall k :: 0 <= k < |pending| ==> pending[k].sectionIndex < count
    ensures grouped.Some? <==> AllKnown(pending, offsets)
    ensures grouped.Some? ==>
              |grouped.value| == count && forall i :: 0 <= i < count ==> grouped.value[i] == Grouped(pending, offsets, i)
  {
    var perSection: seq<seq<Relocation>> := seq(count, _ => []);
    for k := 0 to |pending|
      invariant |perSection| == count && AllKnown(pending[..k], offsets)
      invariant forall i :: 0 <= i < count ==> perSection[i] == Grouped(pending[..k], offsets, i)
    {
      var r := pending[k];
      if r.symbolName !in offsets {
        return None;
      }
      ghost var before := perSection;
      assert pending[..k + 1] == pending[..k] + [r];
      perSection := perSection[r.sectionIndex := perSection[r.sectionIndex] + [Resolved(r, offsets)]];
      forall i | 0 <= i < count
        ensures perSection[i] == Grouped(pending[..k + 1], offsets, i)
      {
        GroupedAppend(pending[..k], r, offsets, i);
      }
    }
    assert pending[..|pending|] == pending;
    grouped := Some(perSection);
  }

  lemma NoParts(parts: seq<Part>)
    ensures Flattened([]) == [] && CountedAll([]) == 0 && (forall pos :: SectionHeaders([], pos) == [])
    ensures SymbolsAt(parts) == FrontSize(parts) + CountedAll(parts)
  {
  }

  lemma NoSymbols()
    ensures Flattened([]) == [] && Strings([]) == [] && forall offset :: SymbolTable([], offset) == []
  {
  }

  lemma NoBodies()
    ensures Bodies([]) == []
  {
  }

  lemma HeadersStep(done: seq<Byte>, parts: seq<Part>, i: nat, offset: nat)
    requires i < |parts|
    ensures done + SectionHeaders(parts[i..], offset)
            == done + SectionHeader(parts[i], offset) + SectionHeaders(parts[i + 1..], offset + Counted(parts[i]))
    ensures CountedAll(parts[i..]) == Counted(parts[i]) + CountedAll(parts[i + 1..])
  {
    hide SectionHeader, Counted;
    assert parts[i..][1..] == parts[i + 1..];
    assert done + (SectionHeader(parts[i], offset) + SectionHeaders(parts[i + 1..], offset + Counted(parts[i])))
        == done + SectionHeader(parts[i], offset) + SectionHeaders(parts[i + 1..], offset + Counted(parts[i]));
  }

  lemma SymbolsStep(done: seq<Byte>, strings: seq<Byte>, symbols: seq<Symbol>, i: nat, size: nat)
    requires i < |symbols|
    ensures done + SymbolTable(symbols[i..], size)
            == done + SymbolRecord(symbols[i], size)
               + SymbolTable(symbols[i + 1..], size + |StringBytes(symbols[i].name)|)
    ensures strings + Strings(symbols[i..]) == strings + StringBytes(symbols[i].name) + Strings(symbols[i + 1..])
  {
    hide SymbolRecord, StringBytes;
    assert symbols[i..][1..] == symbols[i + 1..];
    var added := StringBytes(symbols[i].name);
    var rest := SymbolTable(symbols[i + 1..], size + |added|);
    assert done + (SymbolRecord(symbols[i], size) + rest) == done + SymbolRecord(symbols[i], size) + rest;
    assert strings + (added + Strings(symbols[i + 1..])) == strings + added + Strings(symbols[i + 1..]);
  }

  lemma BodiesStep(done: seq<Byte>, parts: seq<Part>, i: nat)
    requires i < |parts|
    ensures done + Bodies(parts[i..]) == done + Body(parts[i]) + Bodies(parts[i + 1..])
  {
    hide Body;
    assert parts[i..][1..] == parts[i + 1..];
    assert done + (Body(parts[i]) + Bodies(parts[i + 1..])) == done + Body(parts[i]) + Bodies(parts[i + 1..]);
  }

  /** The section headers, while an offset runs ahead over what will be written. */
  method LayOut(parts: seq<Part>) returns (headers: seq<seq<Byte>>, offset: nat)
    ensures Flattened(headers) == SectionHeaders(parts, FrontSize(parts)) && offset == SymbolsAt(parts)
  {
    hide SectionHeader, SectionHeaders, Counted, CountedAll, Flattened, FrontSize, SymbolsAt;
    NoParts(parts);
    headers, offset := [], FrontSize(parts);
    assert parts[0..] == parts;
    for i := 0 to |parts|
      invariant offset + CountedAll(parts[i..]) == SymbolsAt(parts)
      invariant Flattened(headers) + SectionHeaders(parts[i..], offset) == SectionHeaders(parts, FrontSize(parts))
    {
      var header := SectionHeader(parts[i], offset);
      FlattenedAppend(headers, header);
      HeadersStep(Flattened(headers), parts, i, offset);
      offset := offset + Counted(parts[i]);
      headers := headers + [header];
    }
    assert parts[|parts|..] == [];
  }

  /** The symbol records, while long names go to the string table. */
  method WriteSymbols(symbols: seq<Symbol>) returns (records: seq<seq<Byte>>, strings: seq<Byte>, size: nat)
    ensures Flattened(records) == SymbolTable(symbols, 4) && strings == Strings(symbols) && size == 4 + |strings|
  {
    hide SymbolRecord, SymbolTable, StringBytes, Strings, Flattened;
    NoSymbols();
    records, strings, size := [], [], 4;
    assert symbols[0..] == symbols;
    for i := 0 to |symbols|
      invariant size == 4 + |strings| && strings + Strings(symbols[i..]) == Strings(symbols)
      invariant Flattened(records) + SymbolTable(symbols[i..], size) == SymbolTable(symbols, 4)
    {
      var s, record := symbols[i], SymbolRecord(symbols[i], size);
      FlattenedAppend(records, record);
      SymbolsStep(Flattened(records), strings, symbols, i, size);
      var added := StringBytes(s.name);
      records := records + [record];
      strings := strings + added;
      size := size + |added|;
    }
    assert symbols[|symbols|..] == [];
  }

  method AppendAll(before: seq<Byte>, pieces: seq<seq<Byte>>) returns (output: seq<Byte>)
    ensures output == before + Flattened(pieces)
  {
    output := before;
    assert pieces[0..] == pieces;
    for i := 0 to |pieces|
      invariant output + Flattened(pieces[i..]) == before + Flattened(pieces)
    {
      assert pieces[i..][1..] == pieces[i + 1..];
      assert output + (pieces[i] + Flattened(pieces[i + 1..])) == output + pieces[i] + Flattened(pieces[i + 1..]);
      output := output + pieces[i];
    }
    assert pieces[|pieces|..] == [];
  }

  method AppendRelocations(before: seq<Byte>, relocations: seq<Relocation>) returns (output: seq<Byte>)
    ensures output == before + RelocationTable(relocations)
  {
    hide RelocationBytes;
    output := before;
    assert relocations[0..] == relocations;
    for k := 0 to |relocations|
      invariant output + RelocationTable(relocations[k..]) == before + RelocationTable(relocations)
    {
      assert relocations[k..][1..] == relocations[k + 1..];
      var r := RelocationBytes(relocations[k]);
      assert output + (r + RelocationTable(relocations[k + 1..])) == output + r + RelocationTable(relocations[k + 1..]);
      output := output + r;
    }
    assert relocations[|relocations|..] == [];
  }

  /** The data of the sections that have any, each with its relocations. */
  method AppendBodies(before: seq<Byte>, parts: seq<Part>) returns (output: seq<Byte>)
    ensures output == before + Bodies(parts)
  {
    hide RelocationTable, Bodies;
    NoBodies();
    output := before;
    assert parts[0..] == parts;
    for i := 0 to |parts|
      invariant output + Bodies(parts[i..]) == before + Bodies(parts)
    {
      BodiesStep(output, parts, i);
      if parts[i].section.data == [] {
        continue;
      }
      var withData := output + parts[i].section.data;
      output := AppendRelocations(withData, parts[i].relocations);
    }
    assert parts[|parts|..] == [];
  }

  class CoffLinker {
    var sections: seq<Section>
    var relocations: seq<Pending>
    var symbols: seq<Symbol>
    var symbolOffsets: Offsets
    var stringRelocationOffsets: seq<nat>

    /** Every name leads to a symbol, every symbol is found by its name, and relocations name symbols. */
    ghost predicate Valid()
      reads this
    {
      WithinSymbols(symbolOffsets, symbols) && (forall i :: 0 <= i < |symbols| ==> symbols[i].name in symbolOffsets)
      && forall k :: 0 <= k < |relocations| ==>
           (IsName(symbols, relocations[k].symbolName) || relocations[k].symbolName == RDATA_SYMBOL)
           && relocations[k].sectionIndex == 0
    }

    /** The symbol that is found by a name has this name. */
    ghost predicate Agrees()
      requires Valid()
      reads this
    {
      NamesAgree(symbols, symbolOffsets)
    }

    constructor ()
      ensures Valid() && Agrees() && sections == [] && relocations == [] && symbols == [] && symbolOffsets == map[]
      ensures stringRelocationOffsets == []
    {
      sections, relocations, symbols, symbolOffsets, stringRelocationOffsets := [], [], [], map[], [];
    }

    method SetStringRelocations(slots: seq<nat>)
      requires Valid()
      modifies this`stringRelocationOffsets
      ensures Valid() && stringRelocationOffsets == slots
    {
      stringRelocationOffsets := slots;
    }

    method ExportFunction(name: seq<Byte>, address: nat)
      requires Valid()
      modifies this`symbols, this`symbolOffsets
      ensures Valid()
      ensures symbols == old(symbols) + [Symbol(name, address, 1, 0, 2, 0)]
      ensures symbolOffsets == old(symbolOffsets)[name := |old(symbols)|]
      ensures old(Agrees()) ==> Agrees()
    {
      LongerNames(symbols, Symbol(name, address, 1, 0, EXTERNAL, 0));
      symbolOffsets := symbolOffsets[name := |symbols|];
      symbols := symbols + [Symbol(name, address, 1, 0, EXTERNAL, 0)];
    }

    /** A function is imported once; a later import does not even enter its other name. Its other name takes
        the place of a symbol of that name, which then cannot be found any more. */
    method ImportFunction(symbolName: seq<Byte>, importName: seq<Byte>)
      requires Valid()
      modifies this`symbols, this`symbolOffsets
      ensures Valid()
      ensures importName in old(symbolOffsets) ==> symbols == old(symbols) && symbolOffsets == old(symbolOffsets)
      ensures importName !in old(symbolOffsets) ==>
                symbols == old(symbols) + [Symbol(importName, 0, 0, 0x20, 2, 0)]
                && symbolOffsets == old(symbolOffsets)[symbolName := |old(symbols)|][importName := |old(symbols)|]
      ensures old(Agrees()) ==>
                (Agrees() <==> importName in old(symbolOffsets) || symbolName == importName
                               || !IsName(old(symbols), symbolName))
    {
      LongerNames(symbols, Symbol(importName, 0, 0, 0x20, EXTERNAL, 0));
      if importName in symbolOffsets {
        return;
      }
      var idx := |symbols|;
      symbolOffsets := symbolOffsets[symbolName := idx];
      symbolOffsets := symbolOffsets[importName := idx];
      symbols := symbols + [Symbol(importName, 0, 0, 0x20, EXTERNAL, 0)];
    }

    // ----- code -----

    /** Two loops over one call, each as far as the code goes. */
    method ApplyCall(code: seq<Byte>, pos: nat, call: seq<Byte>) returns (data: seq<Byte>)
      ensures data == Patched(code, pos, call)
    {
      data := code;
      var i: nat := 0;
      while i < |call| && pos + i < |data|
        invariant |data| == |code| && i <= |call|
        invariant forall k :: 0 <= k < |data| ==> data[k] == if pos <= k < pos + i then call[k - pos] else code[k]
      {
        data := data[pos + i := call[i]];
        i := i + 1;
      }
      i := 2;
      while i < |call| && pos + i < |data|
        invariant |data| == |code| && i >= 2
        invariant forall k :: 0 <= k < |data| ==>
          data[k] == if pos <= k < pos + |call| then (if 2 <= k - pos < i then 0 else call[k - pos]) else code[k]
      {
        data := data[pos + i := 0];
        i := i + 1;
      }
    }

    /** The calls of a section are patched and their relocations recorded, those of string slots behind
        them. An unknown symbol stops it, and leaves the relocations before it. */
    method CodeSection(code: seq<Byte>, patches: seq<Patch>) returns (data: Option<seq<Byte>>)
      requires Valid()
      modifies this`sections, this`relocations
      ensures Valid()
      ensures data.Some? <==> forall k :: 0 <= k < |patches| ==> patches[k].symbolName in symbolOffsets
      ensures data.Some? ==>
                data.value == PatchAll(code, patches)
                && sections == old(sections) + [Section([46, 116, 101, 120, 116], data.value, 0x60000020)]
                && relocations == old(relocations) + CallRelocations(patches, symbols, symbolOffsets)
                                  + StringRelocations(stringRelocationOffsets, |code|)
      ensures data.Some? ==>
                |relocations| >= |old(relocations)| + |patches|
                && forall k :: 0 <= k < |patches| ==>
                     RelocatesCall(relocations[|old(relocations)| + k], patches[k],
                                   symbols[symbolOffsets[patches[k].symbolName]].name)
      ensures data.None? ==>
                sections == old(sections)
                && relocations == old(relocations) + CallRelocations(patches, symbols, symbolOffsets)
    {
      var patched := code;
      assert patches[0..] == patches;
      for i := 0 to |patches|
        invariant Valid() && |patched| == |code| && sections == old(sections)
        invariant forall k :: 0 <= k < i ==> patches[k].symbolName in symbolOffsets
        invariant PatchAll(patched, patches[i..]) == PatchAll(code, patches)
        invariant relocations + CallRelocations(patches[i..], symbols, symbolOffsets)
               == old(relocations) + CallRelocations(patches, symbols, symbolOffsets)
      {
        var p := patches[i];
        assert patches[i..][1..] == patches[i + 1..] && patches[i..][0] == p;
        patched := ApplyCall(patched, p.pos, p.call);
        if p.symbolName !in symbolOffsets {
          return None;
        }
        var r := CallRelocation(p, symbols, symbolOffsets);
        assert relocations + ([r] + CallRelocations(patches[i + 1..], symbols, symbolOffsets))
            == relocations + [r] + CallRelocations(patches[i + 1..], symbols, symbolOffsets);
        relocations := relocations + [r];
      }
      assert patches[|patches|..] == [];
      AddStringRelocations(|patched|);
      sections := sections + [Section(TEXT, patched, SCN_TEXT)];
      data := Some(patched);
      CallsAreRelocated(patches, symbols, symbolOffsets);
    }

    method AddStringRelocations(size: nat)
      requires Valid()
      modifies this`relocations
      ensures Valid() && relocations == old(relocations) + StringRelocations(stringRelocationOffsets, size)
    {
      var slots := stringRelocationOffsets;
      assert slots[0..] == slots;
      for i := 0 to |slots|
        invariant Valid()
        invariant relocations + StringRelocations(slots[i..], size) == old(relocations) + StringRelocations(slots, size)
      {
        assert slots[i..][1..] == slots[i + 1..];
        if slots[i] + 4 > size {
          continue;
        }
        var r := Pending(slots[i], RDATA_SYMBOL, REL_REL32, 0);
        assert relocations + ([r] + StringRelocations(slots[i + 1..], size))
            == relocations + [r] + StringRelocations(slots[i + 1..], size);
        relocations := relocations + [r];
      }
      assert slots[|slots|..] == [];
    }

    // ----- the file -----

    ghost function FileOffsets(): Offsets
      reads this
    {
      symbolOffsets[RDATA_SYMBOL := |symbols|]
    }

    ghost function FileSymbols(): seq<Symbol>
      reads this
    {
      symbols + [RdataSymbol(sections)]
    }

    ghost function FileParts(stringData: seq<Byte>): seq<Part>
      requires Valid()
      reads this
    {
      Parts(Owned(sections, stringData), relocations, FileOffsets())
    }

    /** As long as no import has taken the place of another symbol, every relocation of the file is of the kind and
        at the place it was recorded with, and leads to a symbol with the name it was recorded for. */
    lemma RelocationsLeadToTheirSymbols(stringData: seq<Byte>, section: nat)
      requires Valid() && Agrees() && section < |FileParts(stringData)|
      ensures Named(FileParts(stringData)[section].relocations, FileSymbols(), section) == OfSection(relocations, section)
    {
      forall k | 0 <= k < |relocations|
        ensures FileSymbols()[FileOffsets()[relocations[k].symbolName]].name == relocations[k].symbolName
      {
        var name := relocations[k].symbolName;
        if name != RDATA_SYMBOL {
          var j :| 0 <= j < |symbols| && symbols[j].name == name;
        }
      }
      GroupedNames(relocations, FileOffsets(), FileSymbols(), section);
    }

    /** Linking never meets an unknown symbol. As long as the numbers fit their fields, what it writes can be
        read back if and only if no section with relocations is empty. */
    method ToBytes(stringData: seq<Byte>) returns (output: Option<seq<Byte>>)
      requires Valid()
      ensures output == Some(File(FileParts(stringData), FileSymbols()))
      ensures Fits(FileParts(stringData), FileSymbols()) && NoneSkipped(FileParts(stringData)) ==>
                Read(output.value) == Some(Object(FileParts(stringData), FileSymbols()))
      ensures Fits(FileParts(stringData), FileSymbols()) && SymbolsAt(FileParts(stringData)) < Range(4) ==>
                (Read(output.value) == Some(Object(FileParts(stringData), FileSymbols()))
                 <==> NoneSkipped(FileParts(stringData)))
    {
      hide File, Fits, NoneSkipped, Read, FileHeader, SectionHeaders, Bodies, SymbolTable, Strings, Grouped, SymbolsAt;
      var owned, rdataIndex := OwnSections(sections, stringData);
      var allSymbols := symbols + [Symbol(RDATA_SYMBOL, 0, rdataIndex + 1, 0, STATIC, 0)];
      var offsets := symbolOffsets[RDATA_SYMBOL := |symbols|];
      var grouped := GroupRelocations(relocations, offsets, |owned|);
      if grouped.None? {
        return None;
      }
      var parts := seq(|owned|, i requires 0 <= i < |owned| => Part(owned[i], grouped.value[i]));
      assert parts == FileParts(stringData) && allSymbols == FileSymbols();
      var headers, offset := LayOut(parts);
      var records, strings, size := WriteSymbols(allSymbols);
      var bytes := FileHeader(|parts|, offset, |allSymbols|);
      bytes := AppendAll(bytes, headers);
      bytes := AppendBodies(bytes, parts);
      bytes := AppendAll(bytes, records);
      FileIs(bytes, parts, allSymbols, size);
      bytes := bytes + LittleEndian(size, 4) + strings;
      output := Some(bytes);
      if Fits(parts, allSymbols) {
        if NoneSkipped(parts) {
          FileReads(parts, allSymbols);
        }
        if SymbolsAt(parts) < Range(4) {
          ReadsBackIff(parts, allSymbols);
        }
      }
    }
  }

  lemma FileIs(bytes: seq<Byte>, parts: seq<Part>, symbols: seq<Symbol>, size: nat)
    requires bytes == FileHeader(|parts|, SymbolsAt(parts), |symbols|) + SectionHeaders(parts, FrontSize(parts))
                      + Bodies(parts) + SymbolTable(symbols, 4)
    requires size == 4 + |Strings(symbols)|
    ensures bytes + LittleEndian(size, 4) + Strings(symbols) == File(parts, symbols)
  {
    hide FileHeader, SectionHeaders, Bodies, SymbolTable, Strings, SymbolsAt;
  }
}
