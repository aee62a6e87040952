/** Executable files: where the sections lie in memory and in the file, and a reader that finds them. */
module ExecutableFile {
  import opened Arithmetic
  import opened Options
  import opened Bytes
  import opened ObjectFile

  /** A section with its place in memory and in the file. */
  datatype Placed = Placed(section: Section, address: nat, pointer: nat)

  const DOS_HEADER: nat := 64
  const NT_HEADERS: nat := 264
  const OPTIONAL_HEADER: nat := 240

  // ----- places -----

  function Place(sections: seq<Section>, address: nat, pointer: nat, memory: nat, file: nat): seq<Placed>
    requires memory > 0 && file > 0
  {
    if sections == [] then []
    else
      var size := |sections[0].data|;
      [Placed(sections[0], address, pointer)]
      + Place(sections[1..], AlignUp(address + AlignUp(size, memory), memory), AlignUp(pointer + size, file), memory, file)
  }

  function EndAddress(sections: seq<Section>, address: nat, memory: nat): nat
    requires memory > 0
  {
    if sections == [] then address
    else EndAddress(sections[1..], AlignUp(address + AlignUp(|sections[0].data|, memory), memory), memory)
  }

  function EndPointer(sections: seq<Section>, pointer: nat, file: nat): nat
    requires file > 0
  {
    if sections == [] then pointer else EndPointer(sections[1..], AlignUp(pointer + |sections[0].data|, file), file)
  }

  lemma AlignedStays(value: nat, alignment: nat)
    requires alignment > 0 && value % alignment == 0
    ensures AlignUp(value, alignment) == value
  {
    ModUnique(value + alignment - 1, alignment, value / alignment, alignment - 1);
  }

  /** Nothing smaller is aligned. */
  lemma AlignsLeast(value: nat, alignment: nat, bound: nat)
    requires alignment > 0 && value <= bound && bound % alignment == 0
    ensures AlignUp(value, alignment) <= bound
  {
    var r := AlignUp(value, alignment);
    if r > bound {
      Distribute(alignment, r / alignment, bound / alignment);
      SmallMultiple(alignment, r / alignment - bound / alignment);
    }
  }

  /** All sections lie between these bounds, aligned, one behind the other. */
  ghost predicate InOrder(placed: seq<Placed>, address: nat, pointer: nat, memory: nat, file: nat)
    requires memory > 0 && file > 0
  {
    (forall i :: 0 <= i < |placed| ==>
       placed[i].address % memory == 0 && placed[i].pointer % file == 0
       && placed[i].address >= address && placed[i].pointer >= pointer)
    && forall i, j :: 0 <= i < j < |placed| ==>
         placed[i].address + AlignUp(|placed[i].section.data|, memory) <= placed[j].address
         && placed[i].pointer + |placed[i].section.data| <= placed[j].pointer
  }

  lemma InOrderStep(first: Placed, rest: seq<Placed>, address: nat, pointer: nat, memory: nat, file: nat)
    requires memory > 0 && file > 0
    requires address % memory == 0 && pointer % file == 0 && first.address == address && first.pointer == pointer
    requires InOrder(rest, AlignUp(address + AlignUp(|first.section.data|, memory), memory),
                     AlignUp(pointer + |first.section.data|, file), memory, file)
    ensures InOrder([first] + rest, address, pointer, memory, file)
  {
    hide AlignUp;
    var placed := [first] + rest;
    assert forall i :: 0 < i < |placed| ==> placed[i] == rest[i - 1];
  }

  /** Sections never overlap, in memory or in the file, and all are aligned. */
  lemma {:induction false} PlacesAreInOrder(sections: seq<Section>, address: nat, pointer: nat, memory: nat, file: nat)
    requires memory > 0 && file > 0 && address % memory == 0 && pointer % file == 0
    ensures |Place(sections, address, pointer, memory, file)| == |sections|
    ensures InOrder(Place(sections, address, pointer, memory, file), address, pointer, memory, file)
    decreases |sections|
  {
    hide AlignUp, InOrder;
    if sections == [] {
      NoneInOrder(address, pointer, memory, file);
    } else {
      var size := |sections[0].data|;
      var nextAddress, nextPointer := AlignUp(address + AlignUp(size, memory), memory), AlignUp(pointer + size, file);
      PlacesAreInOrder(sections[1..], nextAddress, nextPointer, memory, file);
      InOrderStep(Placed(sections[0], address, pointer), Place(sections[1..], nextAddress, nextPointer, memory, file),
                  address, pointer, memory, file);
    }
  }

  lemma NoneInOrder(address: nat, pointer: nat, memory: nat, file: nat)
    requires memory > 0 && file > 0
    ensures InOrder([], address, pointer, memory, file)
  {
  }

  /** Every section is placed at the least aligned address, and at the least aligned offset, that lies behind
      the bytes of the one before it. */
  lemma {:induction false} PlacesAreLeast(sections: seq<Section>, address: nat, pointer: nat, memory: nat, file: nat,
                                          i: nat, bound: nat)
    requires memory > 0 && file > 0 && address % memory == 0 && pointer % file == 0 && i + 1 < |sections|
    ensures var placed := Place(sections, address, pointer, memory, file);
            |placed| == |sections| && placed[i].section == sections[i]
            && (bound % memory == 0 && bound >= placed[i].address + |sections[i].data| ==> placed[i + 1].address <= bound)
            && (bound % file == 0 && bound >= placed[i].pointer + |sections[i].data| ==> placed[i + 1].pointer <= bound)
    decreases |sections|
  {
    hide AlignUp, InOrder;
    PlacesAreInOrder(sections, address, pointer, memory, file);
    var size := |sections[0].data|;
    var nextAddress, nextPointer := AlignUp(address + AlignUp(size, memory), memory), AlignUp(pointer + size, file);
    var placed, rest := Place(sections, address, pointer, memory, file), Place(sections[1..], nextAddress, nextPointer, memory, file);
    assert placed[1..] == rest;
    if i > 0 {
      PlacesAreLeast(sections[1..], nextAddress, nextPointer, memory, file, i - 1, bound);
    } else {
      assert placed[1] == rest[0];
      PaddedFits(address, size, memory);
      AlignedStays(AlignUp(address + size, memory), memory);
      if bound % memory == 0 && bound >= address + size {
        AlignsLeast(address + size, memory, bound);
      }
      if bound % file == 0 && bound >= pointer + size {
        AlignsLeast(pointer + size, file, bound);
      }
    }
  }

  lemma PaddedFits(pointer: nat, size: nat, file: nat)
    requires file > 0 && pointer % file == 0
    ensures pointer + AlignUp(size, file) == AlignUp(pointer + size, file)
  {
    var k := pointer / file;
    assert pointer == file * k;
    ModOfMultiple(size + file - 1, file, k);
  }

  // ----- bytes -----

  function ImageHeader(p: Placed, memory: nat, file: nat): (h: seq<Byte>)
    requires memory > 0 && file > 0
    ensures |h| == SECTION_HEADER
  {
    NameField(p.section.name) + LittleEndian(AlignUp(|p.section.data|, file), 4) + LittleEndian(AlignUp(p.address, memory), 4)
    + LittleEndian(|p.section.data|, 4) + LittleEndian(p.pointer, 4) + Zeros(12)
    + LittleEndian(p.section.characteristics, 4)
  }

  function SectionTable(placed: seq<Placed>, memory: nat, file: nat): seq<Byte>
    requires memory > 0 && file > 0
  {
    if placed == [] then [] else ImageHeader(placed[0], memory, file) + SectionTable(placed[1..], memory, file)
  }

  /** The data of the sections, each filled up to the next one. */
  function Contents(sections: seq<Section>, pointer: nat, file: nat): seq<Byte>
    requires file > 0
  {
    if sections == [] then []
    else
      var end := pointer + |sections[0].data|;
      sections[0].data + Zeros(AlignUp(end, file) - end) + Contents(sections[1..], AlignUp(end, file), file)
  }

  function TableEnd(count: nat): nat {
    DOS_HEADER + NT_HEADERS + count * SECTION_HEADER
  }

  function HeadersSize(count: nat, file: nat): nat
    requires file > 0
  {
    AlignUp(TableEnd(count), file)
  }

  /** The DOS header ends with the offset of the headers behind it. */
  function DosHeader(dos: seq<Byte>): (h: seq<Byte>)
    requires |dos| == DOS_HEADER
    ensures |h| == DOS_HEADER
  {
    dos[..60] + LittleEndian(DOS_HEADER, 4)
  }

  function PlacedSections(sections: seq<Section>, memory: nat, file: nat): seq<Placed>
    requires memory > 0 && file > 0
  {
    Place(sections, AlignUp(HeadersSize(|sections|, file), memory), HeadersSize(|sections|, file), memory, file)
  }

  function Headers(dos: seq<Byte>, nt: seq<Byte>, sections: seq<Section>, memory: nat, file: nat): seq<Byte>
    requires |dos| == DOS_HEADER && memory > 0 && file > 0
  {
    DosHeader(dos) + nt + SectionTable(PlacedSections(sections, memory, file), memory, file)
  }

  function ImageFile(dos: seq<Byte>, nt: seq<Byte>, sections: seq<Section>, memory: nat, file: nat): seq<Byte>
    requires |dos| == DOS_HEADER && memory > 0 && file > 0
  {
    Headers(dos, nt, sections, memory, file) + Zeros(HeadersSize(|sections|, file) - TableEnd(|sections|))
    + Contents(sections, HeadersSize(|sections|, file), file)
  }

  // ----- a reader -----

  /** A section as a loader sees it. */
  datatype Seen = Seen(name: seq<Byte>, size: nat, address: nat, data: seq<Byte>, flags: nat)

  function SeenSection(p: Placed, file: nat): Seen
    requires file > 0
  {
    Seen(p.section.name, AlignUp(|p.section.data|, file), p.address, p.section.data, p.section.characteristics)
  }

  function SeenAll(placed: seq<Placed>, file: nat): seq<Seen>
    requires file > 0
  {
    if placed == [] then [] else [SeenSection(placed[0], file)] + SeenAll(placed[1..], file)
  }

  /** Every section is seen with its name, its bytes, its address and its flags, and with its size rounded up. */
  lemma {:induction false} SeenAsTheyAre(placed: seq<Placed>, file: nat, i: nat)
    requires file > 0 && i < |placed|
    ensures |SeenAll(placed, file)| == |placed|
    ensures var seen, section := SeenAll(placed, file)[i], placed[i].section;
            seen.name == section.name && seen.data == section.data && seen.address == placed[i].address
            && seen.flags == section.characteristics
            && |section.data| <= seen.size < |section.data| + file && seen.size % file == 0
    decreases |placed|
  {
    hide AlignUp;
    if i > 0 {
      SeenAsTheyAre(placed[1..], file, i - 1);
    } else if |placed| > 1 {
      SeenAsTheyAre(placed[1..], file, 0);
    }
  }

  function SeeSection(buffer: seq<Byte>, pos: nat): Option<Seen>
    requires pos + SECTION_HEADER <= |buffer|
  {
    var size, pointer := Field(buffer, pos + 16, 4), Field(buffer, pos + 20, 4);
    if pointer + size > |buffer| then None
    else
      Some(Seen(Trimmed(buffer[pos..pos + 8]), Field(buffer, pos + 8, 4), Field(buffer, pos + 12, 4),
                buffer[pointer..pointer + size], Field(buffer, pos + 36, 4)))
  }

  function SeeSections(buffer: seq<Byte>, pos: nat, count: nat): Option<seq<Seen>>
    decreases count
  {
    if count == 0 then Some([])
    else if pos + SECTION_HEADER > |buffer| then None
    else
      var first := SeeSection(buffer, pos);
      var rest := SeeSections(buffer, pos + SECTION_HEADER, count - 1);
      if first.None? || rest.None? then None else Some([first.value] + rest.value)
  }

  /** The offset of the headers, the number of sections, and the table behind the optional header. */
  function See(buffer: seq<Byte>): Option<seq<Seen>> {
    if |buffer| < DOS_HEADER then None
    else
      var nt := Field(buffer, 60, 4);
      if nt + 24 > |buffer| then None
      else SeeSections(buffer, nt + 24 + Field(buffer, nt + 20, 2), Field(buffer, nt + 6, 2))
  }

  /** A data directory: 112 bytes into the optional header, eight bytes each, an address and a size. */
  function SeeDirectory(buffer: seq<Byte>, index: nat): Option<(nat, nat)> {
    if |buffer| < DOS_HEADER then None
    else
      var at := Field(buffer, 60, 4) + 24 + 112 + 8 * index;
      if at + 8 > |buffer| then None else Some((Field(buffer, at, 4), Field(buffer, at + 4, 4)))
  }

  /** The size of the image, 56 bytes into the optional header. */
  function SeeImageSize(buffer: seq<Byte>): Option<nat> {
    if |buffer| < DOS_HEADER then None
    else
      var at := Field(buffer, 60, 4) + 24 + 56;
      if at + 4 > |buffer| then None else Some(Field(buffer, at, 4))
  }

  // ----- sizes -----

  lemma {:induction false} SectionTableSize(placed: seq<Placed>, memory: nat, file: nat)
    requires memory > 0 && file > 0
    ensures |SectionTable(placed, memory, file)| == |placed| * SECTION_HEADER
    decreases |placed|
  {
    if placed != [] {
      SectionTableSize(placed[1..], memory, file);
    }
  }

  lemma {:induction false} ContentsSize(sections: seq<Section>, pointer: nat, file: nat)
    requires file > 0
    ensures pointer + |Contents(sections, pointer, file)| == EndPointer(sections, pointer, file)
    decreases |sections|
  {
    hide AlignUp;
    if sections != [] {
      ContentsSize(sections[1..], AlignUp(pointer + |sections[0].data|, file), file);
    }
  }

  lemma HeadersAre(dos: seq<Byte>, nt: seq<Byte>, sections: seq<Section>, memory: nat, file: nat)
    requires |dos| == DOS_HEADER && |nt| == NT_HEADERS && memory > 0 && file > 0
    ensures |Headers(dos, nt, sections, memory, file)| == TableEnd(|sections|)
    ensures HeadersSize(|sections|, file) % file == 0 && TableEnd(|sections|) <= HeadersSize(|sections|, file)
    ensures |ImageFile(dos, nt, sections, memory, file)| == EndPointer(sections, HeadersSize(|sections|, file), file)
    ensures |PlacedSections(sections, memory, file)| == |sections|
  {
    hide DosHeader, SectionTable, Contents, Place, EndPointer, InOrder;
    var size := HeadersSize(|sections|, file);
    PlacesAreInOrder(sections, AlignUp(size, memory), size, memory, file);
    SectionTableSize(PlacedSections(sections, memory, file), memory, file);
    ContentsSize(sections, size, file);
  }

  // ----- reading back -----

  ghost predicate SectionFits(s: Section) {
    |s.name| <= 8 && NulFree(s.name) && s.characteristics < Range(4)
  }

  ghost predicate ImageFits(sections: seq<Section>, memory: nat, file: nat)
    requires memory > 0 && file > 0
  {
    var size := HeadersSize(|sections|, file);
    |sections| < Range(2) && EndPointer(sections, size, file) < Range(4)
    && EndAddress(sections, AlignUp(size, memory), memory) < Range(4)
    && forall k :: 0 <= k < |sections| ==> SectionFits(sections[k])
  }

  lemma ImageHeaderPlaces(buffer: seq<Byte>, pos: nat, p: Placed, memory: nat, file: nat)
    requires memory > 0 && file > 0 && At(buffer, pos, ImageHeader(p, memory, file))
    ensures pos + SECTION_HEADER <= |buffer| && At(buffer, pos, NameField(p.section.name))
    ensures At(buffer, pos + 8, LittleEndian(AlignUp(|p.section.data|, file), 4))
    ensures At(buffer, pos + 12, LittleEndian(AlignUp(p.address, memory), 4))
    ensures At(buffer, pos + 16, LittleEndian(|p.section.data|, 4)) && At(buffer, pos + 20, LittleEndian(p.pointer, 4))
    ensures At(buffer, pos + 36, LittleEndian(p.section.characteristics, 4))
  {
    hide LittleEndian, NameField, AlignUp, Zeros;
    var name, padded := NameField(p.section.name), LittleEndian(AlignUp(|p.section.data|, file), 4);
    var address, size := LittleEndian(AlignUp(p.address, memory), 4), LittleEndian(|p.section.data|, 4);
    var pointer, none := LittleEndian(p.pointer, 4), Zeros(12);
    AtConcat(buffer, pos, name + padded + address + size + pointer + none, LittleEndian(p.section.characteristics, 4));
    hide At;
    AtConcat(buffer, pos, name + padded + address + size + pointer, none);
    AtConcat(buffer, pos, name + padded + address + size, pointer);
    AtConcat(buffer, pos, name + padded + address, size);
    AtConcat(buffer, pos, name + padded, address);
    AtConcat(buffer, pos, name, padded);
  }

  lemma SectionIsSeen(buffer: seq<Byte>, pos: nat, p: Placed, memory: nat, file: nat)
    requires memory > 0 && file > 0 && At(buffer, pos, ImageHeader(p, memory, file))
    requires At(buffer, p.pointer, p.section.data) && SectionFits(p.section) && p.address % memory == 0
    requires p.address < Range(4) && AlignUp(p.pointer + |p.section.data|, file) <= |buffer| < Range(4)
    requires p.pointer % file == 0
    ensures pos + SECTION_HEADER <= |buffer| && SeeSection(buffer, pos) == Some(SeenSection(p, file))
  {
    hide LittleEndian, NameField, AlignUp, ImageHeader, Trimmed, NulFree, Number, Range;
    ImageHeaderPlaces(buffer, pos, p, memory, file);
    NameReads(buffer, pos, p.section.name);
    AlignedStays(p.address, memory);
    PaddedFits(p.pointer, |p.section.data|, file);
    FieldReads(buffer, pos + 8, AlignUp(|p.section.data|, file), 4);
    FieldReads(buffer, pos + 12, p.address, 4);
    FieldReads(buffer, pos + 16, |p.section.data|, 4);
    FieldReads(buffer, pos + 20, p.pointer, 4);
    FieldReads(buffer, pos + 36, p.section.characteristics, 4);
  }

  lemma {:induction false} AddressesGrow(sections: seq<Section>, address: nat, memory: nat)
    requires memory > 0
    ensures address <= EndAddress(sections, address, memory)
    decreases |sections|
  {
    if sections != [] {
      var next := AlignUp(address + AlignUp(|sections[0].data|, memory), memory);
      AddressesGrow(sections[1..], next, memory);
    }
  }

  lemma FirstContents(buffer: seq<Byte>, sections: seq<Section>, pointer: nat, file: nat)
    requires file > 0 && sections != [] && At(buffer, pointer, Contents(sections, pointer, file))
    ensures var next := AlignUp(pointer + |sections[0].data|, file);
            At(buffer, pointer, sections[0].data) && At(buffer, next, Contents(sections[1..], next, file))
            && next <= |buffer|
  {
    hide AlignUp;
    var end := pointer + |sections[0].data|;
    var next := AlignUp(end, file);
    AtThree(buffer, pointer, sections[0].data, Zeros(next - end), Contents(sections[1..], next, file));
  }

  lemma {:induction false} SectionsAreSeen(buffer: seq<Byte>, pos: nat, sections: seq<Section>, address: nat,
                                           pointer: nat, memory: nat, file: nat)
    requires memory > 0 && file > 0 && address % memory == 0 && pointer % file == 0
    requires At(buffer, pos, SectionTable(Place(sections, address, pointer, memory, file), memory, file))
    requires At(buffer, pointer, Contents(sections, pointer, file))
    requires |buffer| < Range(4) && EndAddress(sections, address, memory) < Range(4)
    requires forall k :: 0 <= k < |sections| ==> SectionFits(sections[k])
    ensures SeeSections(buffer, pos, |sections|) == Some(SeenAll(Place(sections, address, pointer, memory, file), file))
    decreases |sections|
  {
    hide At, AlignUp, ImageHeader, SeeSection, SeenSection, SectionFits, Contents, Range;
    if sections != [] {
      var first, size := Placed(sections[0], address, pointer), |sections[0].data|;
      var nextAddress, nextPointer := AlignUp(address + AlignUp(size, memory), memory), AlignUp(pointer + size, file);
      var rest := Place(sections[1..], nextAddress, nextPointer, memory, file);
      assert Place(sections, address, pointer, memory, file)[1..] == rest;
      AtConcat(buffer, pos, ImageHeader(first, memory, file), SectionTable(rest, memory, file));
      FirstContents(buffer, sections, pointer, file);
      AddressesGrow(sections, address, memory);
      SectionIsSeen(buffer, pos, first, memory, file);
      SectionsAreSeen(buffer, pos + SECTION_HEADER, sections[1..], nextAddress, nextPointer, memory, file);
    }
  }

  ghost predicate NtFits(nt: seq<Byte>, count: nat) {
    |nt| == NT_HEADERS && At(nt, 6, LittleEndian(count, 2)) && At(nt, 20, LittleEndian(OPTIONAL_HEADER, 2))
  }

  lemma AtInside(buffer: seq<Byte>, pos: nat, piece: seq<Byte>, inner: nat, bytes: seq<Byte>)
    requires At(buffer, pos, piece) && At(piece, inner, bytes)
    ensures At(buffer, pos + inner, bytes)
  {
    var found := buffer[pos + inner..pos + inner + |bytes|];
    forall k | 0 <= k < |bytes|
      ensures found[k] == bytes[k]
    {
      assert found[k] == buffer[pos..pos + |piece|][inner + k];
      assert piece[inner..inner + |bytes|][k] == piece[inner + k];
    }
    assert found == bytes;
  }

  lemma AtEnd(a: seq<Byte>, b: seq<Byte>)
    ensures At(a + b, |a|, b)
  {
  }

  lemma ImageFilePlaces(dos: seq<Byte>, nt: seq<Byte>, sections: seq<Section>, memory: nat, file: nat)
    requires |dos| == DOS_HEADER && memory > 0 && file > 0 && |nt| == NT_HEADERS
    ensures var buffer := ImageFile(dos, nt, sections, memory, file);
            At(buffer, 60, LittleEndian(DOS_HEADER, 4)) && At(buffer, DOS_HEADER, nt)
            && At(buffer, DOS_HEADER + NT_HEADERS, SectionTable(PlacedSections(sections, memory, file), memory, file))
            && At(buffer, HeadersSize(|sections|, file), Contents(sections, HeadersSize(|sections|, file), file))
  {
    hide At, AlignUp, HeadersSize, LittleEndian, SectionTable, Contents, PlacedSections;
    HeadersAre(dos, nt, sections, memory, file);
    var buffer, size := ImageFile(dos, nt, sections, memory, file), HeadersSize(|sections|, file);
    var headers, padding := Headers(dos, nt, sections, memory, file), Zeros(size - TableEnd(|sections|));
    AtMiddle([], buffer, []);
    assert [] + buffer + [] == buffer;
    AtThree(buffer, 0, headers, padding, Contents(sections, size, file));
    AtThree(buffer, 0, DosHeader(dos), nt, SectionTable(PlacedSections(sections, memory, file), memory, file));
    AtEnd(dos[..60], LittleEndian(DOS_HEADER, 4));
    AtInside(buffer, 0, DosHeader(dos), 60, LittleEndian(DOS_HEADER, 4));
  }

  lemma HeadersRead(buffer: seq<Byte>, nt: seq<Byte>, count: nat)
    requires At(buffer, 60, LittleEndian(DOS_HEADER, 4)) && At(buffer, DOS_HEADER, nt) && NtFits(nt, count)
    requires count < Range(2)
    ensures DOS_HEADER + NT_HEADERS <= |buffer| && Field(buffer, 60, 4) == DOS_HEADER
    ensures Field(buffer, DOS_HEADER + 6, 2) == count && Field(buffer, DOS_HEADER + 20, 2) == OPTIONAL_HEADER
  {
    assert DOS_HEADER + NT_HEADERS <= |buffer|;
    SmallRanges();
    hide At, LittleEndian, Field, Range;
    AtInside(buffer, DOS_HEADER, nt, 6, LittleEndian(count, 2));
    AtInside(buffer, DOS_HEADER, nt, 20, LittleEndian(OPTIONAL_HEADER, 2));
    FieldReads(buffer, 60, DOS_HEADER, 4);
    FieldReads(buffer, DOS_HEADER + 6, count, 2);
    FieldReads(buffer, DOS_HEADER + 20, OPTIONAL_HEADER, 2);
  }

  lemma SmallRanges()
    ensures OPTIONAL_HEADER < Range(2) && DOS_HEADER < Range(4)
  {
    assert Range(2) == 256 * Range(1) && Range(1) == 256 * Range(0);
    assert Range(4) == 256 * Range(3) && Range(3) == 256 * Range(2);
  }

  /** A loader finds every section where the headers say, with its bytes unchanged. */
  lemma ImageFileIsSeen(dos: seq<Byte>, nt: seq<Byte>, sections: seq<Section>, memory: nat, file: nat)
    requires |dos| == DOS_HEADER && memory > 0 && file > 0 && NtFits(nt, |sections|) && ImageFits(sections, memory, file)
    ensures See(ImageFile(dos, nt, sections, memory, file)) == Some(SeenAll(PlacedSections(sections, memory, file), file))
  {
    hide At, AlignUp, ImageFile, HeadersSize, LittleEndian, SectionTable, Contents, Place, Field, Range, SeeSections;
    hide EndPointer, EndAddress, SectionFits, SeenAll;
    var buffer, size := ImageFile(dos, nt, sections, memory, file), HeadersSize(|sections|, file);
    HeadersAre(dos, nt, sections, memory, file);
    ImageFilePlaces(dos, nt, sections, memory, file);
    HeadersRead(buffer, nt, |sections|);
    SectionsAreSeen(buffer, DOS_HEADER + NT_HEADERS, sections, AlignUp(size, memory), size, memory, file);
  }

  /** A loader finds what was put where the import directory is, the second of the directories. */
  lemma DirectoryIsSeen(dos: seq<Byte>, nt: seq<Byte>, sections: seq<Section>, memory: nat, file: nat, address: nat,
                        size: nat)
    requires |dos| == DOS_HEADER && memory > 0 && file > 0 && |nt| == NT_HEADERS
    requires At(nt, 144, LittleEndian(address, 4)) && At(nt, 148, LittleEndian(size, 4))
    requires address < Range(4) && size < Range(4)
    ensures SeeDirectory(ImageFile(dos, nt, sections, memory, file), 1) == Some((address, size))
  {
    hide ImageFile, Field, LittleEndian, Range, At;
    FieldIsSeen(dos, nt, sections, memory, file, 144, address);
    FieldIsSeen(dos, nt, sections, memory, file, 148, size);
  }

  /** A number in the headers is read where it is. */
  lemma FieldIsSeen(dos: seq<Byte>, nt: seq<Byte>, sections: seq<Section>, memory: nat, file: nat, at: nat, value: nat)
    requires |dos| == DOS_HEADER && memory > 0 && file > 0 && |nt| == NT_HEADERS
    requires At(nt, at, LittleEndian(value, 4)) && value < Range(4)
    ensures var buffer := ImageFile(dos, nt, sections, memory, file);
            DOS_HEADER + at + 4 <= |buffer| && Field(buffer, 60, 4) == DOS_HEADER && Field(buffer, DOS_HEADER + at, 4) == value
  {
    hide At, ImageFile, LittleEndian, SectionTable, Contents, PlacedSections, Field, Range, HeadersSize;
    var buffer := ImageFile(dos, nt, sections, memory, file);
    ImageFilePlaces(dos, nt, sections, memory, file);
    SmallRanges();
    FieldReads(buffer, 60, DOS_HEADER, 4);
    AtInside(buffer, DOS_HEADER, nt, at, LittleEndian(value, 4));
    FieldReads(buffer, DOS_HEADER + at, value, 4);
  }

  lemma ImageSizeIsSeen(dos: seq<Byte>, nt: seq<Byte>, sections: seq<Section>, memory: nat, file: nat, size: nat)
    requires |dos| == DOS_HEADER && memory > 0 && file > 0 && |nt| == NT_HEADERS
    requires At(nt, 80, LittleEndian(size, 4)) && size < Range(4)
    ensures SeeImageSize(ImageFile(dos, nt, sections, memory, file)) == Some(size)
  {
    hide ImageFile, Field, LittleEndian, Range, At;
    FieldIsSeen(dos, nt, sections, memory, file, 80, size);
  }

  // ----- the size of the image -----

  /** The room of all sections in memory. */
  function MemorySize(sections: seq<Section>, memory: nat): nat
    requires memory > 0
  {
    if sections == [] then 0 else AlignUp(|sections[0].data|, memory) + MemorySize(sections[1..], memory)
  }

  lemma {:induction false} EndIsBehindAll(sections: seq<Section>, address: nat, memory: nat)
    requires memory > 0 && address % memory == 0
    ensures EndAddress(sections, address, memory) == address + MemorySize(sections, memory)
    ensures MemorySize(sections, memory) % memory == 0
    decreases |sections|
  {
    hide AlignUp;
    if sections != [] {
      var size := AlignUp(|sections[0].data|, memory);
      SumIsAligned(address, size, memory);
      AlignedStays(address + size, memory);
      EndIsBehindAll(sections[1..], address + size, memory);
      SumIsAligned(size, MemorySize(sections[1..], memory), memory);
    }
  }

  lemma SumIsAligned(a: nat, b: nat, alignment: nat)
    requires alignment > 0 && b % alignment == 0
    ensures (a + b) % alignment == a % alignment
  {
    ModOfMultiple(a, alignment, b / alignment);
  }

  /** The size of the image counts the headers as they are, and the first section is on the page behind them: it
      reaches the end of the last section, and is a multiple of the alignment, only if the headers fill pages. */
  lemma ImageSizeReachesTheEnd(sections: seq<Section>, headers: nat, memory: nat)
    requires memory > 0
    ensures var size, end := headers + MemorySize(sections, memory), EndAddress(sections, AlignUp(headers, memory), memory);
            size <= end && (size == end <==> headers % memory == 0) && (size % memory == 0 <==> headers % memory == 0)
  {
    hide AlignUp;
    var address := AlignUp(headers, memory);
    EndIsBehindAll(sections, address, memory);
    SumIsAligned(headers, MemorySize(sections, memory), memory);
    if headers % memory == 0 {
      AlignedStays(headers, memory);
    }
  }

  /** Where a section is placed that others go before. */
  lemma {:induction false} AddressBehind(before: seq<Section>, rest: seq<Section>, address: nat, pointer: nat,
                                         memory: nat, file: nat)
    requires memory > 0 && file > 0 && rest != []
    ensures |Place(before + rest, address, pointer, memory, file)| > |before|
    ensures Place(before + rest, address, pointer, memory, file)[|before|].address == EndAddress(before, address, memory)
    ensures Place(before + rest, address, pointer, memory, file)[|before|].section == rest[0]
    decreases |before|
  {
    hide AlignUp;
    if before == [] {
      assert before + rest == rest;
    } else {
      var size := |before[0].data|;
      assert (before + rest)[1..] == before[1..] + rest;
      AddressBehind(before[1..], rest, AlignUp(address + AlignUp(size, memory), memory), AlignUp(pointer + size, file),
                    memory, file);
    }
  }
}
