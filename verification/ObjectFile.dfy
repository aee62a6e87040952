/** COFF object files: their bytes, and a reader that finds its way by the offsets in the headers. */
module ObjectFile {
  import opened Options
  import opened Bytes

  datatype Section = Section(name: seq<Byte>, data: seq<Byte>, characteristics: nat)
  datatype Relocation = Relocation(address: nat, symbol: nat, kind: nat)
  datatype Symbol = Symbol(name: seq<Byte>, value: nat, section: nat, kind: nat, storage: nat, auxiliary: nat)

  /** A section with its relocations. */
  datatype Part = Part(section: Section, relocations: seq<Relocation>)

  const HEADER: nat := 20
  const SECTION_HEADER: nat := 40
  const RELOCATION: nat := 10
  const SYMBOL: nat := 18

  // ----- bytes -----

  /** Eight bytes of a name, with zeros behind a shorter one. */
  function NameField(name: seq<Byte>): (field: seq<Byte>)
    ensures |field| == 8
  {
    if |name| <= 8 then name + Zeros(8 - |name|) else name[..8]
  }

  function FileHeader(sections: nat, symbolTable: nat, symbols: nat): (h: seq<Byte>)
    ensures |h| == HEADER
  {
    LittleEndian(0x8664, 2) + LittleEndian(sections, 2) + LittleEndian(0, 4) + LittleEndian(symbolTable, 4)
    + LittleEndian(symbols, 4) + LittleEndian(0, 4)
  }

  function SectionHeader(part: Part, pos: nat): (h: seq<Byte>)
    ensures |h| == SECTION_HEADER
  {
    var size := LittleEndian(|part.section.data|, 4);
    NameField(part.section.name) + size + LittleEndian(0, 4) + size + LittleEndian(pos, 4)
    + LittleEndian(pos + |part.section.data|, 4) + LittleEndian(0, 4) + LittleEndian(|part.relocations|, 2)
    + LittleEndian(0, 2) + LittleEndian(part.section.characteristics, 4)
  }

  /** The room that is set aside for a section. */
  function Counted(part: Part): nat {
    |part.section.data| + |part.relocations| * RELOCATION
  }

  function CountedAll(parts: seq<Part>): nat {
    if parts == [] then 0 else Counted(parts[0]) + CountedAll(parts[1..])
  }

  function SectionHeaders(parts: seq<Part>, pos: nat): seq<Byte> {
    if parts == [] then [] else SectionHeader(parts[0], pos) + SectionHeaders(parts[1..], pos + Counted(parts[0]))
  }

  function RelocationBytes(r: Relocation): (bytes: seq<Byte>)
    ensures |bytes| == RELOCATION
  {
    LittleEndian(r.address, 4) + LittleEndian(r.symbol, 4) + LittleEndian(r.kind, 2)
  }

  function RelocationTable(relocations: seq<Relocation>): seq<Byte> {
    if relocations == [] then [] else RelocationBytes(relocations[0]) + RelocationTable(relocations[1..])
  }

  /** An empty section is skipped, and its relocations with it. */
  function Body(part: Part): seq<Byte> {
    if part.section.data == [] then [] else part.section.data + RelocationTable(part.relocations)
  }

  function Bodies(parts: seq<Part>): seq<Byte> {
    if parts == [] then [] else Body(parts[0]) + Bodies(parts[1..])
  }

  predicate IsLong(name: seq<Byte>) {
    |name| > 8
  }

  /** What a symbol adds to the string table. */
  function StringBytes(name: seq<Byte>): seq<Byte> {
    if IsLong(name) then name + [0] else []
  }

  function Strings(symbols: seq<Symbol>): seq<Byte> {
    if symbols == [] then [] else StringBytes(symbols[0].name) + Strings(symbols[1..])
  }

  function SymbolName(name: seq<Byte>, offset: nat): (field: seq<Byte>)
    ensures |field| == 8
  {
    if IsLong(name) then LittleEndian(0, 4) + LittleEndian(offset, 4) else NameField(name)
  }

  function SymbolRecord(s: Symbol, offset: nat): (bytes: seq<Byte>)
    ensures |bytes| == SYMBOL
  {
    SymbolName(s.name, offset) + LittleEndian(s.value, 4) + LittleEndian(s.section, 2) + LittleEndian(s.kind, 2)
    + LittleEndian(s.storage, 1) + LittleEndian(s.auxiliary, 1)
  }

  function SymbolTable(symbols: seq<Symbol>, offset: nat): seq<Byte> {
    if symbols == [] then []
    else SymbolRecord(symbols[0], offset) + SymbolTable(symbols[1..], offset + |StringBytes(symbols[0].name)|)
  }

  function FrontSize(parts: seq<Part>): nat {
    HEADER + |parts| * SECTION_HEADER
  }

  /** Where the file header says the symbols are. */
  function SymbolsAt(parts: seq<Part>): nat {
    FrontSize(parts) + CountedAll(parts)
  }

  function Front(parts: seq<Part>, symbols: nat): seq<Byte> {
    FileHeader(|parts|, SymbolsAt(parts), symbols) + SectionHeaders(parts, FrontSize(parts))
  }

  /** Symbols, the size of the string table (which counts itself), and the strings. */
  function Back(symbols: seq<Symbol>): seq<Byte> {
    SymbolTable(symbols, 4) + LittleEndian(4 + |Strings(symbols)|, 4) + Strings(symbols)
  }

  function File(parts: seq<Part>, symbols: seq<Symbol>): seq<Byte> {
    Front(parts, |symbols|) + Bodies(parts) + Back(symbols)
  }

  // ----- a reader -----

  datatype Object = Object(parts: seq<Part>, symbols: seq<Symbol>)

  /** The bytes before the first zero. */
  function Trimmed(field: seq<Byte>): seq<Byte> {
    if field == [] || field[0] == 0 then [] else [field[0]] + Trimmed(field[1..])
  }

  function Field(buffer: seq<Byte>, pos: nat, width: nat): nat
    requires pos + width <= |buffer|
  {
    Number(buffer[pos..pos + width])
  }

  function ReadRelocations(buffer: seq<Byte>, pos: nat, count: nat): Option<seq<Relocation>>
    decreases count
  {
    if count == 0 then Some([])
    else if pos + RELOCATION > |buffer| then None
    else
      var first := Relocation(Field(buffer, pos, 4), Field(buffer, pos + 4, 4), Field(buffer, pos + 8, 2));
      var rest := ReadRelocations(buffer, pos + RELOCATION, count - 1);
      if rest.None? then None else Some([first] + rest.value)
  }

  function ReadSection(buffer: seq<Byte>, pos: nat): Option<Part>
    requires pos + SECTION_HEADER <= |buffer|
  {
    var start, size := Field(buffer, pos + 20, 4), Field(buffer, pos + 16, 4);
    var relocations := ReadRelocations(buffer, Field(buffer, pos + 24, 4), Field(buffer, pos + 32, 2));
    if start + size > |buffer| || relocations.None? then None
    else
      Some(Part(Section(Trimmed(buffer[pos..pos + 8]), buffer[start..start + size], Field(buffer, pos + 36, 4)),
                relocations.value))
  }

  function ReadSections(buffer: seq<Byte>, pos: nat, count: nat): Option<seq<Part>>
    decreases count
  {
    if count == 0 then Some([])
    else if pos + SECTION_HEADER > |buffer| then None
    else
      var first := ReadSection(buffer, pos);
      var rest := ReadSections(buffer, pos + SECTION_HEADER, count - 1);
      if first.None? || rest.None? then None else Some([first.value] + rest.value)
  }

  /** A name that starts with four zeros is an offset into the string table. */
  function ReadSymbolName(buffer: seq<Byte>, pos: nat, strings: nat): Option<seq<Byte>>
    requires pos + 8 <= |buffer|
  {
    if Field(buffer, pos, 4) == 0 then ReadString(buffer, strings + Field(buffer, pos + 4, 4))
    else Some(Trimmed(buffer[pos..pos + 8]))
  }

  function ReadSymbol(buffer: seq<Byte>, pos: nat, strings: nat): Option<Symbol>
    requires pos + SYMBOL <= |buffer|
  {
    var name := ReadSymbolName(buffer, pos, strings);
    if name.None? then None
    else
      Some(Symbol(name.value, Field(buffer, pos + 8, 4), Field(buffer, pos + 12, 2), Field(buffer, pos + 14, 2),
                  Field(buffer, pos + 16, 1), Field(buffer, pos + 17, 1)))
  }

  function ReadSymbols(buffer: seq<Byte>, pos: nat, count: nat, strings: nat): Option<seq<Symbol>>
    decreases count
  {
    if count == 0 then Some([])
    else if pos + SYMBOL > |buffer| then None
    else
      var first := ReadSymbol(buffer, pos, strings);
      var rest := ReadSymbols(buffer, pos + SYMBOL, count - 1, strings);
      if first.None? || rest.None? then None else Some([first.value] + rest.value)
  }

  /** A file for x86-64, with its section headers behind an optional header. */
  function Read(buffer: seq<Byte>): Option<Object> {
    if |buffer| < HEADER || Field(buffer, 0, 2) != 0x8664 then None
    else
      var table, count := Field(buffer, 8, 4), Field(buffer, 12, 4);
      var parts := ReadSections(buffer, HEADER + Field(buffer, 16, 2), Field(buffer, 2, 2));
      var symbols := ReadSymbols(buffer, table, count, table + count * SYMBOL);
      if parts.None? || symbols.None? then None else Some(Object(parts.value, symbols.value))
  }

  // ----- when the numbers fit -----

  ghost predicate RelocationFits(r: Relocation) {
    r.address < Range(4) && r.symbol < Range(4) && r.kind < Range(2)
  }

  ghost predicate PartFits(p: Part) {
    |p.section.name| <= 8 && NulFree(p.section.name) && p.section.characteristics < Range(4)
    && |p.relocations| < Range(2) && forall k :: 0 <= k < |p.relocations| ==> RelocationFits(p.relocations[k])
  }

  ghost predicate SymbolFits(s: Symbol) {
    s.name != [] && NulFree(s.name) && s.value < Range(4) && s.section < Range(2) && s.kind < Range(2)
    && s.storage < Range(1) && s.auxiliary < Range(1)
  }

  ghost predicate Fits(parts: seq<Part>, symbols: seq<Symbol>) {
    |parts| < Range(2) && |symbols| < Range(4) && |File(parts, symbols)| < Range(4)
    && (forall k :: 0 <= k < |parts| ==> PartFits(parts[k])) && forall k :: 0 <= k < |symbols| ==> SymbolFits(symbols[k])
  }

  /** No section is left out of the file while its relocations are counted. */
  ghost predicate NoneSkipped(parts: seq<Part>) {
    forall k :: 0 <= k < |parts| ==> parts[k].section.data != [] || parts[k].relocations == []
  }

  // ----- sizes -----

  lemma {:induction false} RelocationTableSize(relocations: seq<Relocation>)
    ensures |RelocationTable(relocations)| == |relocations| * RELOCATION
    decreases |relocations|
  {
    if relocations != [] {
      RelocationTableSize(relocations[1..]);
    }
  }

  /** A section takes no more room than was set aside, and exactly that unless it was skipped. */
  lemma BodySize(part: Part)
    ensures |Body(part)| <= Counted(part)
    ensures |Body(part)| == Counted(part) <==> part.section.data != [] || part.relocations == []
  {
    RelocationTableSize(part.relocations);
  }

  /** The symbols are where the file header says exactly when no section with relocations is empty. */
  lemma {:induction false} SymbolsWhereTheHeaderSays(parts: seq<Part>)
    ensures |Bodies(parts)| <= CountedAll(parts)
    ensures |Bodies(parts)| == CountedAll(parts) <==> NoneSkipped(parts)
    decreases |parts|
  {
    hide Body, Counted;
    if parts != [] {
      BodySize(parts[0]);
      SymbolsWhereTheHeaderSays(parts[1..]);
      assert NoneSkipped(parts) <==> (parts[0].section.data != [] || parts[0].relocations == []) && NoneSkipped(parts[1..]) by {
        assert forall k :: 0 <= k < |parts[1..]| ==> parts[1..][k] == parts[k + 1];
        if NoneSkipped(parts[1..]) && (parts[0].section.data != [] || parts[0].relocations == []) {
          forall k | 0 <= k < |parts|
            ensures parts[k].section.data != [] || parts[k].relocations == []
          {
            assert k > 0 ==> parts[k] == parts[1..][k - 1];
          }
        }
      }
    }
  }

  lemma {:induction false} SectionHeadersSize(parts: seq<Part>, pos: nat)
    ensures |SectionHeaders(parts, pos)| == |parts| * SECTION_HEADER
    decreases |parts|
  {
    if parts != [] {
      SectionHeadersSize(parts[1..], pos + Counted(parts[0]));
    }
  }

  lemma {:induction false} SymbolTableSize(symbols: seq<Symbol>, offset: nat)
    ensures |SymbolTable(symbols, offset)| == |symbols| * SYMBOL
    decreases |symbols|
  {
    if symbols != [] {
      SymbolTableSize(symbols[1..], offset + |StringBytes(symbols[0].name)|);
    }
  }

  // ----- reading back -----

  lemma FieldReads(buffer: seq<Byte>, pos: nat, n: nat, width: nat)
    requires At(buffer, pos, LittleEndian(n, width)) && n < Range(width)
    ensures pos + width <= |buffer| && Field(buffer, pos, width) == n
  {
    NumberReadsBack(n, width);
  }

  lemma {:induction false} TrimsZeros(name: seq<Byte>, padding: nat)
    requires NulFree(name)
    ensures Trimmed(name + Zeros(padding)) == name
    decreases |name|
  {
    if name != [] {
      assert (name + Zeros(padding))[1..] == name[1..] + Zeros(padding);
      TrimsZeros(name[1..], padding);
    }
  }

  lemma NameFieldReads(name: seq<Byte>)
    requires |name| <= 8 && NulFree(name)
    ensures Trimmed(NameField(name)) == name
  {
    TrimsZeros(name, 8 - |name|);
  }

  lemma RelocationReads(buffer: seq<Byte>, pos: nat, r: Relocation)
    requires At(buffer, pos, RelocationBytes(r)) && RelocationFits(r)
    ensures pos + RELOCATION <= |buffer|
    ensures r == Relocation(Field(buffer, pos, 4), Field(buffer, pos + 4, 4), Field(buffer, pos + 8, 2))
  {
    hide At, LittleEndian, Field, Range;
    AtThree(buffer, pos, LittleEndian(r.address, 4), LittleEndian(r.symbol, 4), LittleEndian(r.kind, 2));
    FieldReads(buffer, pos, r.address, 4);
    FieldReads(buffer, pos + 4, r.symbol, 4);
    FieldReads(buffer, pos + 8, r.kind, 2);
  }

  lemma {:induction false} RelocationsRead(buffer: seq<Byte>, pos: nat, relocations: seq<Relocation>)
    requires At(buffer, pos, RelocationTable(relocations))
    requires forall k :: 0 <= k < |relocations| ==> RelocationFits(relocations[k])
    ensures ReadRelocations(buffer, pos, |relocations|) == Some(relocations)
    decreases |relocations|
  {
    hide At, RelocationBytes, Field, RelocationFits;
    if relocations != [] {
      AtConcat(buffer, pos, RelocationBytes(relocations[0]), RelocationTable(relocations[1..]));
      RelocationReads(buffer, pos, relocations[0]);
      RelocationsRead(buffer, pos + RELOCATION, relocations[1..]);
      assert [relocations[0]] + relocations[1..] == relocations;
    }
  }

  /** Where the ten fields of a section header are. */
  lemma SectionHeaderPlaces(buffer: seq<Byte>, pos: nat, part: Part, start: nat)
    requires At(buffer, pos, SectionHeader(part, start))
    ensures At(buffer, pos, NameField(part.section.name)) && At(buffer, pos + 16, LittleEndian(|part.section.data|, 4))
    ensures At(buffer, pos + 20, LittleEndian(start, 4)) && At(buffer, pos + 24, LittleEndian(start + |part.section.data|, 4))
    ensures At(buffer, pos + 32, LittleEndian(|part.relocations|, 2))
    ensures At(buffer, pos + 36, LittleEndian(part.section.characteristics, 4))
  {
    hide At, LittleEndian, NameField;
    var name, size, zero := NameField(part.section.name), LittleEndian(|part.section.data|, 4), LittleEndian(0, 4);
    var data, table := LittleEndian(start, 4), LittleEndian(start + |part.section.data|, 4);
    var count, none := LittleEndian(|part.relocations|, 2), LittleEndian(0, 2);
    AtConcat(buffer, pos, name + size + zero + size + data + table + zero + count + none,
             LittleEndian(part.section.characteristics, 4));
    AtConcat(buffer, pos, name + size + zero + size + data + table + zero + count, none);
    AtConcat(buffer, pos, name + size + zero + size + data + table + zero, count);
    AtConcat(buffer, pos, name + size + zero + size + data + table, zero);
    AtConcat(buffer, pos, name + size + zero + size + data, table);
    AtConcat(buffer, pos, name + size + zero + size, data);
    AtConcat(buffer, pos, name + size + zero, size);
    AtConcat(buffer, pos, name + size, zero);
    AtConcat(buffer, pos, name, size);
  }

  /** The rest of a section header: the size in memory is that in the file, and everything else is zero. */
  lemma SectionHeaderRest(part: Part, start: nat)
    ensures SectionHeader(part, start)[8..12] == SectionHeader(part, start)[16..20]
    ensures forall k :: 12 <= k < 16 || 28 <= k < 32 || 34 <= k < 36 ==> SectionHeader(part, start)[k] == 0
  {
    ZeroInBytes(4);
    ZeroInBytes(2);
    hide LittleEndian, NameField;
  }

  /** A section is read where its header says, with its relocations behind it. */
  lemma SectionReads(buffer: seq<Byte>, pos: nat, part: Part, start: nat)
    requires At(buffer, pos, SectionHeader(part, start)) && At(buffer, start, part.section.data)
    requires At(buffer, start + |part.section.data|, RelocationTable(part.relocations))
    requires PartFits(part) && |buffer| < Range(4)
    ensures pos + SECTION_HEADER <= |buffer| && ReadSection(buffer, pos) == Some(part)
  {
    hide LittleEndian, NameField, SectionHeader, RelocationTable, ReadRelocations, Trimmed, Number, NulFree, Range;
    SectionHeaderEnds(buffer, pos, part, start);
    SectionHeaderPlaces(buffer, pos, part, start);
    NameReads(buffer, pos, part.section.name);
    NumbersRead(buffer, pos, part, start);
    RelocationsRead(buffer, start + |part.section.data|, part.relocations);
  }

  lemma SectionHeaderEnds(buffer: seq<Byte>, pos: nat, part: Part, start: nat)
    requires At(buffer, pos, SectionHeader(part, start))
    ensures pos + SECTION_HEADER <= |buffer|
  {
    hide SectionHeader;
  }

  lemma NameReads(buffer: seq<Byte>, pos: nat, name: seq<Byte>)
    requires At(buffer, pos, NameField(name)) && |name| <= 8 && NulFree(name)
    ensures pos + 8 <= |buffer| && Trimmed(buffer[pos..pos + 8]) == name
  {
    hide NameField, Trimmed, NulFree;
    NameFieldReads(name);
  }

  lemma NumbersRead(buffer: seq<Byte>, pos: nat, part: Part, start: nat)
    requires At(buffer, pos, SectionHeader(part, start)) && start + |part.section.data| <= |buffer| < Range(4)
    requires |part.relocations| < Range(2) && part.section.characteristics < Range(4)
    ensures pos + SECTION_HEADER <= |buffer|
    ensures Field(buffer, pos + 16, 4) == |part.section.data| && Field(buffer, pos + 20, 4) == start
    ensures Field(buffer, pos + 24, 4) == start + |part.section.data|
    ensures Field(buffer, pos + 32, 2) == |part.relocations| && Field(buffer, pos + 36, 4) == part.section.characteristics
  {
    hide At, LittleEndian, SectionHeader, NameField, Field, Range;
    SectionHeaderEnds(buffer, pos, part, start);
    SectionHeaderPlaces(buffer, pos, part, start);
    FieldReads(buffer, pos + 16, |part.section.data|, 4);
    FieldReads(buffer, pos + 20, start, 4);
    FieldReads(buffer, pos + 24, start + |part.section.data|, 4);
    FieldReads(buffer, pos + 32, |part.relocations|, 2);
    FieldReads(buffer, pos + 36, part.section.characteristics, 4);
  }

  ghost predicate Kept(part: Part) {
    part.section.data != [] || part.relocations == []
  }

  lemma AtWithin(buffer: seq<Byte>, pos: nat, bytes: seq<Byte>)
    requires At(buffer, pos, bytes)
    ensures pos <= |buffer|
  {
  }

  lemma AtNothing(buffer: seq<Byte>, pos: nat)
    requires pos <= |buffer|
    ensures At(buffer, pos, [])
  {
    assert buffer[pos..pos] == [];
  }

  lemma BodyPlaces(buffer: seq<Byte>, pos: nat, part: Part)
    requires At(buffer, pos, Body(part)) && Kept(part)
    ensures At(buffer, pos, part.section.data)
    ensures At(buffer, pos + |part.section.data|, RelocationTable(part.relocations))
  {
    if part.section.data != [] {
      hide At, RelocationTable;
      AtConcat(buffer, pos, part.section.data, RelocationTable(part.relocations));
    } else {
      hide At;
      AtWithin(buffer, pos, Body(part));
      assert RelocationTable(part.relocations) == [];
      AtNothing(buffer, pos);
    }
  }

  lemma {:induction false} SectionsRead(buffer: seq<Byte>, pos: nat, parts: seq<Part>, start: nat)
    requires At(buffer, pos, SectionHeaders(parts, start)) && At(buffer, start, Bodies(parts))
    requires |buffer| < Range(4) && forall k :: 0 <= k < |parts| ==> PartFits(parts[k]) && Kept(parts[k])
    ensures ReadSections(buffer, pos, |parts|) == Some(parts)
    decreases |parts|
  {
    hide At, SectionHeader, Body, Counted, ReadSection, PartFits, Kept, Range;
    if parts != [] {
      var first, next := parts[0], start + Counted(parts[0]);
      AtConcat(buffer, pos, SectionHeader(first, start), SectionHeaders(parts[1..], next));
      AtConcat(buffer, start, Body(first), Bodies(parts[1..]));
      KeptSize(first);
      BodyPlaces(buffer, start, first);
      SectionReads(buffer, pos, first, start);
      SectionsRead(buffer, pos + SECTION_HEADER, parts[1..], next);
      assert [first] + parts[1..] == parts;
    }
  }

  lemma KeptSize(part: Part)
    requires Kept(part)
    ensures |Body(part)| == Counted(part)
  {
    BodySize(part);
  }

  lemma SymbolPlaces(buffer: seq<Byte>, pos: nat, s: Symbol, offset: nat)
    requires At(buffer, pos, SymbolRecord(s, offset))
    ensures At(buffer, pos, SymbolName(s.name, offset)) && At(buffer, pos + 8, LittleEndian(s.value, 4))
    ensures At(buffer, pos + 12, LittleEndian(s.section, 2)) && At(buffer, pos + 14, LittleEndian(s.kind, 2))
    ensures At(buffer, pos + 16, LittleEndian(s.storage, 1)) && At(buffer, pos + 17, LittleEndian(s.auxiliary, 1))
    ensures pos + SYMBOL <= |buffer|
  {
    hide LittleEndian, SymbolName;
    var name, value := SymbolName(s.name, offset), LittleEndian(s.value, 4);
    var section, kind, storage := LittleEndian(s.section, 2), LittleEndian(s.kind, 2), LittleEndian(s.storage, 1);
    AtConcat(buffer, pos, name + value + section + kind + storage, LittleEndian(s.auxiliary, 1));
    hide At;
    AtConcat(buffer, pos, name + value + section + kind, storage);
    AtConcat(buffer, pos, name + value + section, kind);
    AtConcat(buffer, pos, name + value, section);
    AtConcat(buffer, pos, name, value);
  }

  lemma LongNameReads(buffer: seq<Byte>, pos: nat, strings: nat, name: seq<Byte>, offset: nat)
    requires At(buffer, pos, SymbolName(name, offset)) && IsLong(name) && NulFree(name)
    requires At(buffer, strings + offset, name + [0]) && offset < Range(4)
    ensures pos + 8 <= |buffer| && ReadSymbolName(buffer, pos, strings) == Some(name)
  {
    hide At, LittleEndian, NameField, Field, ReadString, NulFree, Range;
    AtConcat(buffer, pos, LittleEndian(0, 4), LittleEndian(offset, 4));
    assert 0 < Range(4);
    FieldReads(buffer, pos, 0, 4);
    FieldReads(buffer, pos + 4, offset, 4);
    ReadsString(buffer, strings + offset, name);
  }

  lemma NonzeroNumber(bytes: seq<Byte>)
    requires bytes != [] && bytes[0] != 0
    ensures Number(bytes) != 0
  {
  }

  lemma ShortNameReads(buffer: seq<Byte>, pos: nat, strings: nat, name: seq<Byte>, offset: nat)
    requires At(buffer, pos, SymbolName(name, offset)) && !IsLong(name) && NulFree(name) && name != []
    ensures pos + 8 <= |buffer| && ReadSymbolName(buffer, pos, strings) == Some(name)
  {
    hide Trimmed, ReadString, Number;
    NameReads(buffer, pos, name);
    assert buffer[pos..pos + 4][0] == buffer[pos..pos + 8][0] == name[0];
    NonzeroNumber(buffer[pos..pos + 4]);
  }

  lemma SymbolReads(buffer: seq<Byte>, pos: nat, strings: nat, s: Symbol, offset: nat)
    requires At(buffer, pos, SymbolRecord(s, offset)) && At(buffer, strings + offset, StringBytes(s.name))
    requires SymbolFits(s) && offset < Range(4)
    ensures pos + SYMBOL <= |buffer| && ReadSymbol(buffer, pos, strings) == Some(s)
  {
    hide At, NulFree, LittleEndian, SymbolRecord, SymbolName, ReadSymbolName, Field, Range;
    SymbolPlaces(buffer, pos, s, offset);
    if IsLong(s.name) {
      LongNameReads(buffer, pos, strings, s.name, offset);
    } else {
      ShortNameReads(buffer, pos, strings, s.name, offset);
    }
    FieldReads(buffer, pos + 8, s.value, 4);
    FieldReads(buffer, pos + 12, s.section, 2);
    FieldReads(buffer, pos + 14, s.kind, 2);
    FieldReads(buffer, pos + 16, s.storage, 1);
    FieldReads(buffer, pos + 17, s.auxiliary, 1);
  }

  lemma {:induction false} SymbolsRead(buffer: seq<Byte>, pos: nat, symbols: seq<Symbol>, strings: nat, offset: nat)
    requires At(buffer, pos, SymbolTable(symbols, offset)) && At(buffer, strings + offset, Strings(symbols))
    requires |buffer| < Range(4) && forall k :: 0 <= k < |symbols| ==> SymbolFits(symbols[k])
    ensures ReadSymbols(buffer, pos, |symbols|, strings) == Some(symbols)
    decreases |symbols|
  {
    hide At, SymbolRecord, StringBytes, ReadSymbol, SymbolFits, Range;
    if symbols != [] {
      var first, next := symbols[0], offset + |StringBytes(symbols[0].name)|;
      AtWithin(buffer, strings + offset, Strings(symbols));
      AtConcat(buffer, pos, SymbolRecord(first, offset), SymbolTable(symbols[1..], next));
      AtConcat(buffer, strings + offset, StringBytes(first.name), Strings(symbols[1..]));
      SymbolReads(buffer, pos, strings, first, offset);
      SymbolsRead(buffer, pos + SYMBOL, symbols[1..], strings, next);
      assert [first] + symbols[1..] == symbols;
    }
  }

  // ----- the whole file -----

  lemma MachineFits()
    ensures 0x8664 < Range(2)
  {
    assert Range(2) == 256 * Range(1) && Range(1) == 256 * Range(0);
  }

  lemma ZeroField(buffer: seq<Byte>, pos: nat)
    requires At(buffer, pos, LittleEndian(0, 4))
    ensures pos + 2 <= |buffer| && Field(buffer, pos, 2) == 0
  {
    ZeroInBytes(4);
    var field := buffer[pos..pos + 2];
    assert field == buffer[pos..pos + 4][..2] == [0, 0];
    assert Number(field[1..]) == 0 && field[1..][1..] == [];
  }

  lemma FileHeaderReads(buffer: seq<Byte>, sections: nat, table: nat, symbols: nat)
    requires At(buffer, 0, FileHeader(sections, table, symbols))
    requires sections < Range(2) && table < Range(4) && symbols < Range(4)
    ensures HEADER <= |buffer| && Field(buffer, 2, 2) == sections
    ensures Field(buffer, 8, 4) == table && Field(buffer, 12, 4) == symbols
    ensures Field(buffer, 0, 2) == 0x8664 && Field(buffer, 16, 2) == 0
  {
    MachineFits();
    hide LittleEndian, Field, Range;
    var machine, stamp, none := LittleEndian(0x8664, 2), LittleEndian(0, 4), LittleEndian(0, 4);
    var n, t, s := LittleEndian(sections, 2), LittleEndian(table, 4), LittleEndian(symbols, 4);
    assert |buffer| >= HEADER;
    hide At;
    AtConcat(buffer, 0, machine + n + stamp + t + s, none);
    AtConcat(buffer, 0, machine + n + stamp + t, s);
    AtConcat(buffer, 0, machine + n + stamp, t);
    AtConcat(buffer, 0, machine + n, stamp);
    AtConcat(buffer, 0, machine, n);
    ZeroField(buffer, 16);
    FieldReads(buffer, 0, 0x8664, 2);
    FieldReads(buffer, 2, sections, 2);
    FieldReads(buffer, 8, table, 4);
    FieldReads(buffer, 12, symbols, 4);
  }

  /** Where the pieces of a file are, as long as no section is skipped. */
  /** No time stamp, no optional header, no characteristics. */
  lemma FileHeaderRest(sections: nat, table: nat, symbols: nat)
    ensures forall k :: 4 <= k < 8 || 16 <= k < 20 ==> FileHeader(sections, table, symbols)[k] == 0
  {
    ZeroInBytes(4);
    hide LittleEndian;
  }

  lemma FilePlaces(parts: seq<Part>, symbols: seq<Symbol>)
    requires NoneSkipped(parts)
    ensures var buffer, table := File(parts, symbols), SymbolsAt(parts);
            At(buffer, 0, FileHeader(|parts|, table, |symbols|))
            && At(buffer, HEADER, SectionHeaders(parts, FrontSize(parts)))
            && At(buffer, FrontSize(parts), Bodies(parts)) && At(buffer, table, SymbolTable(symbols, 4))
            && At(buffer, table + |symbols| * SYMBOL + 4, Strings(symbols)) && table <= |buffer|
  {
    hide At, FileHeader, SectionHeaders, CountedAll, Bodies, SymbolTable, Strings, NoneSkipped;
    var buffer, table := File(parts, symbols), SymbolsAt(parts);
    var front, bodies, back := Front(parts, |symbols|), Bodies(parts), Back(symbols);
    SymbolsWhereTheHeaderSays(parts);
    SectionHeadersSize(parts, FrontSize(parts));
    SymbolTableSize(symbols, 4);
    AtMiddle([], buffer, []);
    assert [] + buffer + [] == buffer;
    AtThree(buffer, 0, front, bodies, back);
    AtConcat(buffer, 0, FileHeader(|parts|, table, |symbols|), SectionHeaders(parts, FrontSize(parts)));
    AtThree(buffer, table, SymbolTable(symbols, 4), LittleEndian(4 + |Strings(symbols)|, 4), Strings(symbols));
    AtWithin(buffer, table, back);
  }

  /** Reading a file by its own offsets gives back every section with its bytes and relocations, and
      every symbol with its name. */
  lemma FileReads(parts: seq<Part>, symbols: seq<Symbol>)
    requires Fits(parts, symbols) && NoneSkipped(parts)
    ensures Read(File(parts, symbols)) == Some(Object(parts, symbols))
  {
    hide At, File, FileHeader, SectionHeaders, Bodies, SymbolTable, Strings, Field, FrontSize, SymbolsAt, Range;
    hide PartFits, SymbolFits, ReadSections, ReadSymbols;
    var buffer, table := File(parts, symbols), SymbolsAt(parts);
    FilePlaces(parts, symbols);
    FileHeaderReads(buffer, |parts|, table, |symbols|);
    assert forall k :: 0 <= k < |parts| ==> PartFits(parts[k]) && Kept(parts[k]);
    SectionsRead(buffer, HEADER, parts, FrontSize(parts));
    SymbolsRead(buffer, table, symbols, table + |symbols| * SYMBOL, 4);
  }

  lemma {:induction false} NotEnoughForSymbols(buffer: seq<Byte>, pos: nat, count: nat, strings: nat)
    requires count > 0 && pos + count * SYMBOL > |buffer|
    ensures ReadSymbols(buffer, pos, count, strings) == None
    decreases count
  {
    hide ReadSymbol;
    if count > 1 && pos + SYMBOL <= |buffer| {
      NotEnoughForSymbols(buffer, pos + SYMBOL, count - 1, strings);
    }
  }

  lemma HeaderIsFirst(parts: seq<Part>, symbols: seq<Symbol>)
    ensures At(File(parts, symbols), 0, FileHeader(|parts|, SymbolsAt(parts), |symbols|))
    ensures |File(parts, symbols)|
            == FrontSize(parts) + |Bodies(parts)| + |symbols| * SYMBOL + 4 + |Strings(symbols)|
  {
    hide At, FileHeader, SectionHeaders, Bodies, SymbolTable, Strings, SymbolsAt;
    var buffer := File(parts, symbols);
    SectionHeadersSize(parts, FrontSize(parts));
    SymbolTableSize(symbols, 4);
    AtMiddle([], buffer, []);
    assert [] + buffer + [] == buffer;
    AtThree(buffer, 0, Front(parts, |symbols|), Bodies(parts), Back(symbols));
    AtConcat(buffer, 0, FileHeader(|parts|, SymbolsAt(parts), |symbols|), SectionHeaders(parts, FrontSize(parts)));
  }

  /** Relocations of empty sections are counted and not written. When they would take more room than the
      string table, the symbols are said to be where the file has no room for them. */
  lemma SkippedRelocationsLoseTheFile(parts: seq<Part>, symbols: seq<Symbol>)
    requires Fits(parts, symbols) && SymbolsAt(parts) < Range(4) && symbols != []
    requires CountedAll(parts) > |Bodies(parts)| + 4 + |Strings(symbols)|
    ensures Read(File(parts, symbols)) == None
  {
    hide At, File, FileHeader, Bodies, Strings, ReadSections, ReadSymbols, Field, Range;
    var buffer := File(parts, symbols);
    HeaderIsFirst(parts, symbols);
    FileHeaderReads(buffer, |parts|, SymbolsAt(parts), |symbols|);
    NotEnoughForSymbols(buffer, SymbolsAt(parts), |symbols|, SymbolsAt(parts) + |symbols| * SYMBOL);
  }

  lemma {:induction false} PiecesAppend(before: seq<Part>, rest: seq<Part>, pos: nat)
    ensures SectionHeaders(before + rest, pos)
            == SectionHeaders(before, pos) + SectionHeaders(rest, pos + CountedAll(before))
    ensures Bodies(before + rest) == Bodies(before) + Bodies(rest)
    decreases |before|
  {
    hide SectionHeader, Body, Counted;
    if before == [] {
      assert before + rest == rest;
    } else {
      assert (before + rest)[1..] == before[1..] + rest;
      PiecesAppend(before[1..], rest, pos + Counted(before[0]));
    }
  }

  lemma FrontPlaces(parts: seq<Part>, symbols: seq<Symbol>)
    ensures At(File(parts, symbols), HEADER, SectionHeaders(parts, FrontSize(parts)))
    ensures At(File(parts, symbols), FrontSize(parts), Bodies(parts))
  {
    hide At, SectionHeaders, Bodies, FileHeader, Back, SymbolsAt;
    var buffer, start := File(parts, symbols), FrontSize(parts);
    SectionHeadersSize(parts, start);
    AtMiddle([], buffer, []);
    assert [] + buffer + [] == buffer;
    AtThree(buffer, 0, Front(parts, |symbols|), Bodies(parts), Back(symbols));
    AtConcat(buffer, 0, FileHeader(|parts|, SymbolsAt(parts), |symbols|), SectionHeaders(parts, start));
  }

  lemma PrefixFits(before: seq<Part>, rest: seq<Part>, symbols: seq<Symbol>)
    requires Fits(before + rest, symbols) && NoneSkipped(before)
    ensures |File(before + rest, symbols)| < Range(4)
    ensures forall k :: 0 <= k < |before| ==> PartFits(before[k]) && Kept(before[k])
  {
    hide PartFits, SymbolFits, Range, File;
    assert forall k :: 0 <= k < |before| ==> before[k] == (before + rest)[k];
  }

  /** Whatever is skipped behind them, the sections before it are read as they are. */
  lemma SectionsBeforeSkippedRead(before: seq<Part>, rest: seq<Part>, symbols: seq<Symbol>)
    requires Fits(before + rest, symbols) && NoneSkipped(before)
    ensures ReadSections(File(before + rest, symbols), HEADER, |before|) == Some(before)
  {
    hide At, File, SectionHeaders, Bodies, CountedAll, FrontSize, Fits, NoneSkipped, PartFits, Kept, Range, ReadSections;
    PrefixFits(before, rest, symbols);
    var parts := before + rest;
    var buffer, start := File(parts, symbols), FrontSize(parts);
    FrontPlaces(parts, symbols);
    PiecesAppend(before, rest, start);
    AtConcat(buffer, HEADER, SectionHeaders(before, start), SectionHeaders(rest, start + CountedAll(before)));
    AtConcat(buffer, start, Bodies(before), Bodies(rest));
    SectionsRead(buffer, HEADER, before, start);
  }

  // ----- a file that is read elsewhere -----

  /** The relocations that are counted and not written. */
  function Skipped(parts: seq<Part>): nat {
    if parts == [] then 0
    else (if parts[0].section.data == [] then |parts[0].relocations| else 0) + Skipped(parts[1..])
  }

  lemma {:induction false} SkippedIsTheDifference(parts: seq<Part>)
    ensures CountedAll(parts) == |Bodies(parts)| + Skipped(parts) * RELOCATION
    decreases |parts|
  {
    hide RelocationTable;
    if parts != [] {
      RelocationTableSize(parts[0].relocations);
      SkippedIsTheDifference(parts[1..]);
    }
  }

  /** Between two strings there is one zero, and no string is empty. */
  lemma {:induction false} NoTwoZeros(symbols: seq<Symbol>, i: nat)
    requires i + 1 < |Strings(symbols)| && forall k :: 0 <= k < |symbols| ==> NulFree(symbols[k].name)
    ensures Strings(symbols)[i] != 0 || Strings(symbols)[i + 1] != 0
    decreases |symbols|
  {
    var first, rest := StringBytes(symbols[0].name), Strings(symbols[1..]);
    assert Strings(symbols) == first + rest;
    if i >= |first| {
      NoTwoZeros(symbols[1..], i - |first|);
    } else if i + 1 == |first| {
      StringsStart(symbols[1..]);
    }
  }

  lemma {:induction false} StringsStart(symbols: seq<Symbol>)
    requires Strings(symbols) != [] && forall k :: 0 <= k < |symbols| ==> NulFree(symbols[k].name)
    ensures Strings(symbols)[0] != 0
    decreases |symbols|
  {
    if !IsLong(symbols[0].name) {
      assert Strings(symbols) == Strings(symbols[1..]);
      StringsStart(symbols[1..]);
    }
  }

  lemma {:induction false} TrimmedIsShorter(field: seq<Byte>)
    ensures |Trimmed(field)| <= |field|
    decreases |field|
  {
    if field != [] && field[0] != 0 {
      TrimmedIsShorter(field[1..]);
    }
  }

  lemma {:induction false} ZeroNumber(bytes: seq<Byte>, k: nat)
    requires Number(bytes) == 0 && k < |bytes|
    ensures bytes[k] == 0
    decreases |bytes|
  {
    if k > 0 {
      ZeroNumber(bytes[1..], k - 1);
    }
  }

  /** Where a long name is read, there are four zeros. */
  lemma LongNameNeedsZeros(buffer: seq<Byte>, pos: nat, strings: nat, s: Symbol, k: nat)
    requires pos + SYMBOL <= |buffer| && ReadSymbol(buffer, pos, strings) == Some(s) && IsLong(s.name) && k < 4
    ensures buffer[pos + k] == 0
  {
    hide ReadString, Trimmed, Number;
    TrimmedIsShorter(buffer[pos..pos + 8]);
    ZeroNumber(buffer[pos..pos + 4], k);
  }

  lemma {:induction false} LastIsRead(buffer: seq<Byte>, pos: nat, count: nat, strings: nat, symbols: seq<Symbol>)
    requires count > 0 && ReadSymbols(buffer, pos, count, strings) == Some(symbols)
    ensures |symbols| == count && pos + count * SYMBOL <= |buffer|
    ensures ReadSymbol(buffer, pos + (count - 1) * SYMBOL, strings) == Some(symbols[count - 1])
    decreases count
  {
    hide ReadSymbol;
    if count > 1 {
      LastIsRead(buffer, pos + SYMBOL, count - 1, strings, symbols[1..]);
    } else {
      assert ReadSymbols(buffer, pos + SYMBOL, 0, strings) == Some([]);
    }
  }

  /** The end of a file, from its last symbol on. */
  function LastBytes(symbols: seq<Symbol>, offset: nat): seq<Byte>
    requires symbols != []
  {
    SymbolRecord(symbols[|symbols| - 1], offset) + LittleEndian(4 + |Strings(symbols)|, 4) + Strings(symbols)
  }

  lemma {:induction false} LastRecord(symbols: seq<Symbol>, offset: nat) returns (last: nat)
    requires symbols != []
    ensures SymbolTable(symbols, offset)
            == SymbolTable(symbols[..|symbols| - 1], offset) + SymbolRecord(symbols[|symbols| - 1], last)
    decreases |symbols|
  {
    hide SymbolRecord, StringBytes;
    var next := offset + |StringBytes(symbols[0].name)|;
    if |symbols| == 1 {
      last := offset;
      assert symbols[1..] == [];
    } else {
      last := LastRecord(symbols[1..], next);
      assert symbols[..|symbols| - 1][1..] == symbols[1..][..|symbols| - 2];
    }
  }

  lemma LastBytesAt(parts: seq<Part>, symbols: seq<Symbol>) returns (offset: nat)
    requires symbols != []
    ensures At(File(parts, symbols), FrontSize(parts) + |Bodies(parts)| + (|symbols| - 1) * SYMBOL, LastBytes(symbols, offset))
    ensures |File(parts, symbols)|
            == FrontSize(parts) + |Bodies(parts)| + (|symbols| - 1) * SYMBOL + |LastBytes(symbols, offset)|
  {
    hide SymbolTable, SymbolRecord, Strings, Bodies, SectionHeaders, FileHeader, SymbolsAt, LittleEndian;
    offset := LastRecord(symbols, 4);
    SectionHeadersSize(parts, FrontSize(parts));
    SymbolTableSize(symbols[..|symbols| - 1], 4);
    var before := Front(parts, |symbols|) + Bodies(parts) + SymbolTable(symbols[..|symbols| - 1], 4);
    var last := LastBytes(symbols, offset);
    assert File(parts, symbols) == before + last;
    assert before + last == before + last + [];
    AtMiddle(before, last, []);
  }

  /** Moved on by some relocations, what stands there is not four zeros. */
  lemma NotFourZeros(symbols: seq<Symbol>, offset: nat, skipped: nat)
    requires symbols != [] && skipped > 0 && skipped * RELOCATION + SYMBOL <= |LastBytes(symbols, offset)|
    requires 0 < symbols[|symbols| - 1].section < Range(2)
    requires forall k :: 0 <= k < |symbols| ==> NulFree(symbols[k].name)
    ensures var at := skipped * RELOCATION;
            LastBytes(symbols, offset)[at + 2] != 0 || LastBytes(symbols, offset)[at + 3] != 0
  {
    hide LastBytes, NulFree, Range, Strings;
    LastBytesSize(symbols, offset);
    if skipped == 1 {
      SectionIsThere(symbols, offset);
    } else {
      NameIsThere(symbols, offset, skipped * RELOCATION - 20);
    }
  }

  lemma LastBytesSize(symbols: seq<Symbol>, offset: nat)
    requires symbols != []
    ensures |LastBytes(symbols, offset)| == SYMBOL + 4 + |Strings(symbols)|
  {
    hide SymbolName, LittleEndian, Strings;
  }

  lemma SectionIsThere(symbols: seq<Symbol>, offset: nat)
    requires symbols != [] && 0 < symbols[|symbols| - 1].section < Range(2)
    ensures |LastBytes(symbols, offset)| > 13
    ensures LastBytes(symbols, offset)[12] != 0 || LastBytes(symbols, offset)[13] != 0
  {
    hide SymbolRecord, LittleEndian, Strings, Range;
    var last := symbols[|symbols| - 1];
    var rest := LittleEndian(4 + |Strings(symbols)|, 4) + Strings(symbols);
    assert LastBytes(symbols, offset) == SymbolRecord(last, offset) + rest;
    SectionBytes(last, offset, rest);
    NumberReadsBack(last.section, 2);
    TwoBytes(LittleEndian(last.section, 2));
  }

  lemma NameIsThere(symbols: seq<Symbol>, offset: nat, i: nat)
    requires symbols != [] && i + 1 < |Strings(symbols)|
    requires forall k :: 0 <= k < |symbols| ==> NulFree(symbols[k].name)
    ensures |LastBytes(symbols, offset)| > i + 23
    ensures LastBytes(symbols, offset)[i + 22] != 0 || LastBytes(symbols, offset)[i + 23] != 0
  {
    hide SymbolRecord, LittleEndian, Strings, NulFree;
    NoTwoZeros(symbols, i);
    var front := SymbolRecord(symbols[|symbols| - 1], offset) + LittleEndian(4 + |Strings(symbols)|, 4);
    assert LastBytes(symbols, offset) == front + Strings(symbols) && |front| == 22;
  }

  lemma SectionBytes(s: Symbol, offset: nat, rest: seq<Byte>)
    ensures (SymbolRecord(s, offset) + rest)[12] == LittleEndian(s.section, 2)[0]
    ensures (SymbolRecord(s, offset) + rest)[13] == LittleEndian(s.section, 2)[1]
  {
    hide LittleEndian, SymbolName;
  }

  lemma TwoBytes(bytes: seq<Byte>)
    requires |bytes| == 2 && Number(bytes) > 0
    ensures bytes[0] != 0 || bytes[1] != 0
  {
    assert Number(bytes) == bytes[0] + 256 * Number(bytes[1..]);
    assert Number(bytes[1..]) == bytes[1] + 256 * Number(bytes[1..][1..]);
    assert bytes[1..][1..] == [];
  }

  /** A file whose last symbol has a long name and a section can be read back if and only if no section with
      relocations is empty. */
  lemma ReadsBackIff(parts: seq<Part>, symbols: seq<Symbol>)
    requires Fits(parts, symbols) && SymbolsAt(parts) < Range(4) && symbols != []
    requires IsLong(symbols[|symbols| - 1].name) && symbols[|symbols| - 1].section > 0
    ensures Read(File(parts, symbols)) == Some(Object(parts, symbols)) <==> NoneSkipped(parts)
  {
    if NoneSkipped(parts) {
      FileReads(parts, symbols);
    } else {
      SkippedMovesTheLast(parts, symbols);
    }
  }

  lemma SkippedMovesTheLast(parts: seq<Part>, symbols: seq<Symbol>)
    requires Fits(parts, symbols) && SymbolsAt(parts) < Range(4) && symbols != []
    requires IsLong(symbols[|symbols| - 1].name) && symbols[|symbols| - 1].section > 0
    requires !NoneSkipped(parts)
    ensures Read(File(parts, symbols)) != Some(Object(parts, symbols))
  {
    hide Fits, File, FileHeader, Bodies, LastBytes, ReadSections, ReadSymbols, ReadSymbol, Field, Range, At;
    hide CountedAll, NoneSkipped, FrontSize, Skipped, Strings;
    var buffer, n, skipped := File(parts, symbols), |symbols|, Skipped(parts);
    NamesFit(parts, symbols);
    SymbolsWhereTheHeaderSays(parts);
    SkippedIsTheDifference(parts);
    HeaderIsFirst(parts, symbols);
    FileHeaderReads(buffer, |parts|, SymbolsAt(parts), n);
    var table := SymbolsAt(parts);
    if ReadSymbols(buffer, table, n, table + n * SYMBOL) == Some(symbols) {
      var pos := table + (n - 1) * SYMBOL;
      LastIsRead(buffer, table, n, table + n * SYMBOL, symbols);
      LongNameNeedsZeros(buffer, pos, table + n * SYMBOL, symbols[n - 1], 2);
      LongNameNeedsZeros(buffer, pos, table + n * SYMBOL, symbols[n - 1], 3);
      LastIsElsewhere(parts, symbols, pos);
    }
  }

  lemma LastIsElsewhere(parts: seq<Part>, symbols: seq<Symbol>, pos: nat)
    requires Fits(parts, symbols) && symbols != [] && symbols[|symbols| - 1].section > 0 && Skipped(parts) > 0
    requires pos == FrontSize(parts) + |Bodies(parts)| + Skipped(parts) * RELOCATION + (|symbols| - 1) * SYMBOL
    requires pos + SYMBOL <= |File(parts, symbols)|
    ensures File(parts, symbols)[pos + 2] != 0 || File(parts, symbols)[pos + 3] != 0
  {
    hide Fits, File, Bodies, LastBytes, Range, At, FrontSize, Skipped;
    var buffer, at := File(parts, symbols), Skipped(parts) * RELOCATION;
    NamesFit(parts, symbols);
    var offset := LastBytesAt(parts, symbols);
    NotFourZeros(symbols, offset, Skipped(parts));
    ByteInside(buffer, pos - at, LastBytes(symbols, offset), at + 2);
    ByteInside(buffer, pos - at, LastBytes(symbols, offset), at + 3);
  }

  lemma ByteInside(buffer: seq<Byte>, pos: nat, bytes: seq<Byte>, k: nat)
    requires At(buffer, pos, bytes) && k < |bytes|
    ensures pos + k < |buffer| && buffer[pos + k] == bytes[k]
  {
    assert buffer[pos..pos + |bytes|][k] == buffer[pos + k];
  }

  lemma NamesFit(parts: seq<Part>, symbols: seq<Symbol>)
    requires Fits(parts, symbols) && symbols != []
    ensures |parts| < Range(2) && |symbols| < Range(4) && symbols[|symbols| - 1].section < Range(2)
    ensures forall k :: 0 <= k < |symbols| ==> NulFree(symbols[k].name)
  {
    hide File, Range, NulFree, PartFits;
    assert SymbolFits(symbols[|symbols| - 1]);
  }
}
