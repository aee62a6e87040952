/** The executable that the linker writes: sections are placed in memory and in the file, and a zeroed
    file is filled with headers and data. */
module ExecutableImages {
  import opened Options
  import opened Bytes
  import opened ObjectFile
  import opened ImportData
  import opened ImportBuilder
  import opened ExecutableFile

  const EDATA: seq<Byte> := [46, 101, 100, 97, 116, 97]
  const IDATA: seq<Byte> := [46, 105, 100, 97, 116, 97]
  const RDATA: seq<Byte> := [46, 114, 100, 97, 116, 97]
  const READ_DATA: nat := 0x40000040
  const EXPORT_RVA: nat := 0x2000
  const IMPORT_DIRECTORY: nat := 144
  const IMAGE_SIZE: nat := 80

  predicate PowerOfTwo(n: nat) {
    n == 1 || (n > 1 && n % 2 == 0 && PowerOfTwo(n / 2))
  }

  function Addresses(sections: seq<Section>, address: nat, memory: nat): (a: seq<nat>)
    requires memory > 0
    ensures |a| == |sections|
  {
    if sections == [] then []
    else [address] + Addresses(sections[1..], AlignUp(address + AlignUp(|sections[0].data|, memory), memory), memory)
  }

  function Pointers(sections: seq<Section>, pointer: nat, file: nat): (p: seq<nat>)
    requires file > 0
    ensures |p| == |sections|
  {
    if sections == [] then []
    else [pointer] + Pointers(sections[1..], AlignUp(pointer + |sections[0].data|, file), file)
  }

  lemma {:induction false} PlaceIs(sections: seq<Section>, address: nat, pointer: nat, memory: nat, file: nat)
    requires memory > 0 && file > 0
    ensures |Place(sections, address, pointer, memory, file)| == |sections|
    ensures forall k :: 0 <= k < |sections| ==>
              Place(sections, address, pointer, memory, file)[k]
              == Placed(sections[k], Addresses(sections, address, memory)[k], Pointers(sections, pointer, file)[k])
    decreases |sections|
  {
    hide AlignUp;
    if sections != [] {
      var size := |sections[0].data|;
      var nextAddress, nextPointer := AlignUp(address + AlignUp(size, memory), memory), AlignUp(pointer + size, file);
      PlaceIs(sections[1..], nextAddress, nextPointer, memory, file);
      forall k | 0 <= k < |sections|
        ensures Place(sections, address, pointer, memory, file)[k]
             == Placed(sections[k], Addresses(sections, address, memory)[k], Pointers(sections, pointer, file)[k])
      {
        if k > 0 {
          assert Place(sections, address, pointer, memory, file)[k]
              == Place(sections[1..], nextAddress, nextPointer, memory, file)[k - 1];
        }
      }
    }
  }

  function Bare(placed: seq<Placed>): (sections: seq<Section>)
    ensures |sections| == |placed|
  {
    seq(|placed|, k requires 0 <= k < |placed| => placed[k].section)
  }

  lemma WritesInTurn(done: seq<Byte>, left: nat, bytes: seq<Byte>)
    requires |bytes| <= left
    ensures Written(done + Zeros(left), |done|, bytes) == done + bytes + Zeros(left - |bytes|)
  {
    WritesNext(done, bytes, left, []);
    assert done + Zeros(left) + [] == done + Zeros(left);
    assert done + bytes + Zeros(left - |bytes|) + [] == done + bytes + Zeros(left - |bytes|);
  }

  /** Addresses in memory, one section after the other. */
  method AssignAddresses(before: seq<Placed>, start: nat, memory: nat, rva: nat)
    returns (sections: seq<Placed>, rdata: nat)
    requires memory > 0
    ensures |sections| == |before|
    ensures forall k :: 0 <= k < |before| ==>
              sections[k] == before[k].(address := Addresses(Bare(before), start, memory)[k])
    ensures before != [] && before[|before| - 1].section.name == RDATA ==> rdata == sections[|before| - 1].address
  {
    hide AlignUp;
    sections, rdata := before, rva;
    var current: nat := start;
    ghost var bare := Bare(before);
    assert bare[0..] == bare;
    for i := 0 to |before|
      invariant |sections| == |before|
      invariant forall k :: 0 <= k < i ==> sections[k] == before[k].(address := Addresses(bare, start, memory)[k])
      invariant forall k :: i <= k < |before| ==> sections[k] == before[k]
      invariant Addresses(bare[i..], current, memory) == Addresses(bare, start, memory)[i..]
      invariant i > 0 && before[i - 1].section.name == RDATA ==> rdata == sections[i - 1].address
    {
      var size := |before[i].section.data|;
      assert bare[i..][1..] == bare[i + 1..] && bare[i..][0] == before[i].section;
      assert Addresses(bare, start, memory)[i] == Addresses(bare[i..], current, memory)[0] == current;
      assert Addresses(bare, start, memory)[i + 1..] == Addresses(bare[i..], current, memory)[1..];
      sections := sections[i := before[i].(address := current)];
      if before[i].section.name == RDATA {
        rdata := current;
      }
      current := AlignUp(current + AlignUp(size, memory), memory);
    }
  }

  /** Offsets in the file, its size, and the size of the image. */
  method AssignPointers(before: seq<Placed>, start: nat, memory: nat, file: nat)
    returns (sections: seq<Placed>, size: nat, imageSize: nat)
    requires memory > 0 && file > 0
    ensures |sections| == |before| && size == EndPointer(Bare(before), start, file)
    ensures imageSize == start + MemorySize(Bare(before), memory)
    ensures forall k :: 0 <= k < |before| ==>
              sections[k] == before[k].(pointer := Pointers(Bare(before), start, file)[k])
  {
    hide AlignUp;
    sections, size, imageSize := before, start, start;
    ghost var bare := Bare(before);
    assert bare[0..] == bare;
    for i := 0 to |before|
      invariant |sections| == |before| && EndPointer(bare[i..], size, file) == EndPointer(bare, start, file)
      invariant imageSize + MemorySize(bare[i..], memory) == start + MemorySize(bare, memory)
      invariant forall k :: 0 <= k < i ==> sections[k] == before[k].(pointer := Pointers(bare, start, file)[k])
      invariant forall k :: i <= k < |before| ==> sections[k] == before[k]
      invariant Pointers(bare[i..], size, file) == Pointers(bare, start, file)[i..]
    {
      assert bare[i..][1..] == bare[i + 1..] && bare[i..][0] == before[i].section;
      assert Pointers(bare, start, file)[i] == Pointers(bare[i..], size, file)[0] == size;
      assert Pointers(bare, start, file)[i + 1..] == Pointers(bare[i..], size, file)[1..];
      sections := sections[i := before[i].(pointer := size)];
      size := AlignUp(size + |before[i].section.data|, file);
      imageSize := imageSize + AlignUp(|before[i].section.data|, memory);
    }
    assert bare[|before|..] == [];
  }

  /** The section headers, written one after the other over zeros. */
  method WriteTable(before: seq<Byte>, ghost done: seq<Byte>, placed: seq<Placed>, pos: nat, memory: nat, file: nat)
    returns (binary: seq<Byte>)
    requires memory > 0 && file > 0 && pos == |done|
    requires |before| >= |done| + |placed| * SECTION_HEADER && before == done + Zeros(|before| - |done|)
    ensures |SectionTable(placed, memory, file)| == |placed| * SECTION_HEADER && |binary| == |before|
    ensures binary == done + SectionTable(placed, memory, file)
                      + Zeros(|before| - |done| - |SectionTable(placed, memory, file)|)
  {
    hide ImageHeader, Written, Zeros;
    binary := before;
    SectionTableSize(placed, memory, file);
    ghost var written, table := done, SectionTable(placed, memory, file);
    var at := pos;
    assert placed[0..] == placed;
    for i := 0 to |placed|
      invariant at == |written| && |written| + (|placed| - i) * SECTION_HEADER <= |before|
      invariant binary == written + Zeros(|before| - |written|)
      invariant written + SectionTable(placed[i..], memory, file) == done + table
    {
      var header := ImageHeader(placed[i], memory, file);
      assert placed[i..][1..] == placed[i + 1..];
      assert written + (header + SectionTable(placed[i + 1..], memory, file))
          == written + header + SectionTable(placed[i + 1..], memory, file);
      WritesInTurn(written, |before| - |written|, header);
      binary := Overwrite(binary, at, header);
      written := written + header;
      at := at + SECTION_HEADER;
    }
    assert placed[|placed|..] == [];
  }

  lemma ContentsStep(written: seq<Byte>, bare: seq<Section>, i: nat, file: nat)
    requires file > 0 && i < |bare|
    ensures var end := |written| + |bare[i].data|;
            written + Contents(bare[i..], |written|, file)
            == written + bare[i].data + Zeros(AlignUp(end, file) - end) + Contents(bare[i + 1..], AlignUp(end, file), file)
  {
    hide AlignUp, Zeros;
    assert bare[i..][1..] == bare[i + 1..] && bare[i..][0] == bare[i];
    var end := |written| + |bare[i].data|;
    var data, gap, rest := bare[i].data, Zeros(AlignUp(end, file) - end), Contents(bare[i + 1..], AlignUp(end, file), file);
    assert written + (data + gap + rest) == written + data + gap + rest;
  }

  lemma PointersStep(all: seq<nat>, bare: seq<Section>, i: nat, pointer: nat, file: nat)
    requires file > 0 && i < |bare| == |all| && Pointers(bare[i..], pointer, file) == all[i..]
    ensures all[i] == pointer
    ensures Pointers(bare[i + 1..], AlignUp(pointer + |bare[i].data|, file), file) == all[i + 1..]
  {
    hide AlignUp;
    assert bare[i..][1..] == bare[i + 1..] && bare[i..][0] == bare[i];
    assert all[i] == all[i..][0];
    assert all[i + 1..] == all[i..][1..];
  }

  /** The data of every section that has any, at its offset. */
  method WriteContents(before: seq<Byte>, ghost done: seq<Byte>, placed: seq<Placed>, file: nat)
    returns (binary: seq<Byte>)
    requires file > 0 && |done| % file == 0
    requires forall k :: 0 <= k < |placed| ==> placed[k].pointer == Pointers(Bare(placed), |done|, file)[k]
    requires |before| == EndPointer(Bare(placed), |done|, file) >= |done| && before == done + Zeros(|before| - |done|)
    ensures binary == done + Contents(Bare(placed), |done|, file)
  {
    hide AlignUp, Written, Zeros, Contents, Pointers, EndPointer;
    NothingBehind(file);
    binary := before;
    ghost var written, bare := done, Bare(placed);
    ContentsSize(bare, |done|, file);
    assert bare[0..] == bare;
    for i := 0 to |placed|
      invariant |written| + |Contents(bare[i..], |written|, file)| == |before|
      invariant binary == written + Zeros(|before| - |written|)
      invariant written + Contents(bare[i..], |written|, file) == done + Contents(bare, |done|, file)
      invariant Pointers(bare[i..], |written|, file) == Pointers(bare, |done|, file)[i..]
    {
      var data, pointer := placed[i].section.data, placed[i].pointer;
      PointersStep(Pointers(bare, |done|, file), bare, i, |written|, file);
      ContentsStep(written, bare, i, file);
      ghost var end := pointer + |data|;
      ghost var gap := AlignUp(end, file) - end;
      if data != [] {
        WritesInTurn(written, |before| - |written|, data);
        binary := Overwrite(binary, pointer, data);
      } else {
        assert written + data == written;
      }
      ZerosSplit(written + data, |before| - end, gap);
      written := written + data + Zeros(gap);
    }
    assert bare[|placed|..] == [];
  }

  lemma NothingBehind(file: nat)
    requires file > 0
    ensures Zeros(0) == [] && forall pointer :: Contents([], pointer, file) == []
  {
  }

  lemma ZerosSplit(done: seq<Byte>, count: nat, first: nat)
    requires first <= count
    ensures done + Zeros(count) == done + Zeros(first) + Zeros(count - first)
  {
  }

  /** DOS header, NT headers and section table, written over zeros. */
  method WriteHeaders(dos: seq<Byte>, nt: seq<Byte>, placed: seq<Placed>, size: nat, memory: nat, file: nat)
    returns (binary: seq<Byte>)
    requires |dos| == DOS_HEADER && |nt| == NT_HEADERS && memory > 0 && file > 0 && TableEnd(|placed|) <= size
    ensures |DosHeader(dos) + nt + SectionTable(placed, memory, file)| == TableEnd(|placed|)
    ensures binary == DosHeader(dos) + nt + SectionTable(placed, memory, file) + Zeros(size - TableEnd(|placed|))
  {
    hide Written, SectionTable, DosHeader, Zeros;
    binary := Zeros(size);
    assert [] + Zeros(size) == Zeros(size);
    WritesInTurn([], size, dos);
    binary := Overwrite(binary, 0, dos);
    binary := Overwrite(binary, 60, LittleEndian(DOS_HEADER, 4));
    DosWritten(dos, size - DOS_HEADER);
    WritesInTurn(DosHeader(dos), size - DOS_HEADER, nt);
    binary := Overwrite(binary, DOS_HEADER, nt);
    binary := WriteTable(binary, DosHeader(dos) + nt, placed, DOS_HEADER + NT_HEADERS, memory, file);
  }

  /** A file of zeros, filled from the front. */
  method WriteImage(dos: seq<Byte>, nt: seq<Byte>, placed: seq<Placed>, headersSize: nat, size: nat, memory: nat, file: nat)
    returns (binary: seq<Byte>)
    requires |dos| == DOS_HEADER && |nt| == NT_HEADERS && memory > 0 && file > 0
    requires placed == PlacedSections(Bare(placed), memory, file) && headersSize == HeadersSize(|placed|, file)
    requires size == EndPointer(Bare(placed), headersSize, file)
    ensures binary == ImageFile(dos, nt, Bare(placed), memory, file)
  {
    hide AlignUp, SectionTable, Contents, EndPointer, PlacedSections, Pointers, HeadersSize, DosHeader, Zeros, TableEnd;
    ghost var bare, headers := Bare(placed), Headers(dos, nt, Bare(placed), memory, file);
    HeadersAre(dos, nt, bare, memory, file);
    PointersOf(placed, memory, file);
    ContentsSize(bare, headersSize, file);
    binary := WriteHeaders(dos, nt, placed, size, memory, file);
    ghost var padding := headersSize - TableEnd(|placed|);
    ZerosSplit(headers, size - TableEnd(|placed|), padding);
    binary := WriteContents(binary, headers + Zeros(padding), placed, file);
  }

  lemma PointersOf(placed: seq<Placed>, memory: nat, file: nat)
    requires memory > 0 && file > 0 && placed == PlacedSections(Bare(placed), memory, file)
    ensures forall k :: 0 <= k < |placed| ==>
              placed[k].pointer == Pointers(Bare(placed), HeadersSize(|placed|, file), file)[k]
  {
    hide AlignUp, HeadersSize, Place, Pointers;
    var size := HeadersSize(|placed|, file);
    PlaceIs(Bare(placed), AlignUp(size, memory), size, memory, file);
  }

  /** All sections placed behind the headers. */
  method PlaceSections(before: seq<Placed>, memory: nat, file: nat, rva: nat)
    returns (sections: seq<Placed>, rdata: nat, headersSize: nat, size: nat, imageSize: nat)
    requires memory > 0 && file > 0
    ensures sections == PlacedSections(Bare(before), memory, file) && Bare(sections) == Bare(before)
    ensures headersSize == HeadersSize(|before|, file) && size == EndPointer(Bare(before), headersSize, file)
    ensures imageSize == headersSize + MemorySize(Bare(before), memory)
    ensures before != [] && before[|before| - 1].section.name == RDATA ==> rdata == sections[|before| - 1].address
  {
    hide AlignUp, Place, Addresses, Pointers, EndPointer;
    headersSize := AlignUp(DOS_HEADER + NT_HEADERS + |before| * SECTION_HEADER, file);
    var addressed;
    addressed, rdata := AssignAddresses(before, AlignUp(headersSize, memory), memory, rva);
    assert Bare(addressed) == Bare(before);
    sections, size, imageSize := AssignPointers(addressed, headersSize, memory, file);
    PlaceIs(Bare(before), AlignUp(headersSize, memory), headersSize, memory, file);
  }

  lemma DosWritten(dos: seq<Byte>, left: nat)
    requires |dos| == DOS_HEADER
    ensures Written([] + dos + Zeros(left), 60, LittleEndian(DOS_HEADER, 4)) == DosHeader(dos) + Zeros(left)
  {
    hide LittleEndian;
  }

  class PEImage {
    var dosHeader: seq<Byte>
    var ntHeaders: seq<Byte>
    var sections: seq<Placed>
    var imports: seq<Import>
    var rdataRVA: nat
    const sectionAlignment: nat := 0x1000
    const fileAlignment: nat

    ghost predicate Valid()
      reads this
    {
      |dosHeader| == DOS_HEADER && |ntHeaders| == NT_HEADERS
      && At(ntHeaders, 20, LittleEndian(OPTIONAL_HEADER, 2)) && PowerOfTwo(fileAlignment)
    }

    ghost function AllSections(exportData: seq<Byte>, exportSize: nat, stringData: seq<Byte>): seq<Section>
      reads this
    {
      Bare(sections) + Closing(exportData, imports, exportSize, stringData)
    }

    constructor (dos: seq<Byte>, nt: seq<Byte>, alignment: nat)
      requires |dos| == DOS_HEADER && |nt| == NT_HEADERS && PowerOfTwo(alignment)
      ensures Valid() && sections == [] && imports == [] && fileAlignment == alignment
    {
      dosHeader, ntHeaders, sections, imports, rdataRVA := dos, nt, [], [], 0;
      fileAlignment := alignment;
      new;
      ntHeaders := Overwrite(ntHeaders, 20, LittleEndian(OPTIONAL_HEADER, 2));
      FieldWritten(nt, 20, LittleEndian(OPTIONAL_HEADER, 2), 20, []);
    }

    /** The three sections that every image gets are added behind its own, everything is placed, and a
        loader sees all of it as it was. */
    method ToBytes(exportData: seq<Byte>, exportSize: nat, stringData: seq<Byte>) returns (binary: seq<Byte>)
      requires Valid()
      modifies this
      ensures Valid() && imports == old(imports) && dosHeader == old(dosHeader)
      ensures sections == PlacedSections(old(AllSections(exportData, exportSize, stringData)), sectionAlignment, fileAlignment)
      ensures NtFits(ntHeaders, |sections|)
      ensures var size := |Image(imports, ImportRVA(exportSize))|;
              ImportRVA(exportSize) < Range(4) && size < Range(4) ==>
                SeeDirectory(binary, 1) == Some((ImportRVA(exportSize), size))
      ensures var all := old(AllSections(exportData, exportSize, stringData));
              var size := HeadersSize(|all|, fileAlignment) + MemorySize(all, 0x1000);
              size < Range(4) ==> SeeImageSize(binary) == Some(size)
      ensures sections != [] && rdataRVA == sections[|sections| - 1].address
      ensures var all := old(AllSections(exportData, exportSize, stringData));
              binary == ImageFile(dosHeader, ntHeaders, all, sectionAlignment, fileAlignment)
              && (ImageFits(all, sectionAlignment, fileAlignment) ==> See(binary) == Some(SeenAll(sections, fileAlignment)))
    {
      hide At, LittleEndian, Image, ImportRVA, Written, ImageFile, PlacedSections, HeadersSize, EndPointer, ImageFits, See;
      hide SeenAll, Bare, MemorySize, SeeDirectory, SeeImageSize;
      var importRVA := ImportRVA(exportSize);
      var idata := BuildIdataBuffer(importRVA, imports);
      sections := sections + [Placed(Section(EDATA, exportData, READ_DATA), 0, 0)];
      sections := sections + [Placed(Section(IDATA, idata, READ_DATA), 0, 0)];
      sections := sections + [Placed(Section(RDATA, stringData, READ_DATA), 0, 0)];
      ghost var all := old(AllSections(exportData, exportSize, stringData));
      BareBehind(old(sections), sections[|sections| - 3..]);
      assert sections == old(sections) + sections[|sections| - 3..];
      PowersArePositive(fileAlignment);
      ntHeaders := WriteFields(ntHeaders, importRVA, |idata|, |sections|);
      var headersSize, size, imageSize;
      sections, rdataRVA, headersSize, size, imageSize := PlaceSections(sections, sectionAlignment, fileAlignment, rdataRVA);
      ntHeaders := WriteImageSize(ntHeaders, imageSize, |sections|, importRVA, |idata|);
      binary := WriteImage(dosHeader, ntHeaders, sections, headersSize, size, sectionAlignment, fileAlignment);
      SeenByALoader(dosHeader, ntHeaders, all, sectionAlignment, fileAlignment, importRVA, |idata|, imageSize);
    }
  }

  lemma SeenByALoader(dos: seq<Byte>, nt: seq<Byte>, all: seq<Section>, memory: nat, file: nat, importRVA: nat,
                      importSize: nat, imageSize: nat)
    requires |dos| == DOS_HEADER && memory > 0 && file > 0 && NtFits(nt, |all|)
    requires At(nt, 144, LittleEndian(importRVA, 4)) && At(nt, 148, LittleEndian(importSize, 4))
    requires At(nt, 80, LittleEndian(imageSize, 4))
    ensures var binary := ImageFile(dos, nt, all, memory, file);
            (importRVA < Range(4) && importSize < Range(4) ==> SeeDirectory(binary, 1) == Some((importRVA, importSize)))
            && (imageSize < Range(4) ==> SeeImageSize(binary) == Some(imageSize))
            && (ImageFits(all, memory, file) ==>
                  See(binary) == Some(SeenAll(PlacedSections(all, memory, file), file)))
  {
    hide At, LittleEndian, Range, ImageFile, PlacedSections, ImageFits, See, SeenAll, SeeDirectory, SeeImageSize;
    if importRVA < Range(4) && importSize < Range(4) {
      DirectoryIsSeen(dos, nt, all, memory, file, importRVA, importSize);
    }
    if imageSize < Range(4) {
      ImageSizeIsSeen(dos, nt, all, memory, file, imageSize);
    }
    if ImageFits(all, memory, file) {
      ImageFileIsSeen(dos, nt, all, memory, file);
    }
  }

  lemma BareBehind(before: seq<Placed>, last: seq<Placed>)
    requires |last| == 3
    ensures Bare(before + last) == Bare(before) + [last[0].section, last[1].section, last[2].section]
  {
  }

  lemma {:induction false} PowersArePositive(n: nat)
    requires PowerOfTwo(n)
    ensures n > 0
  {
  }

  /** The import directory and the number of sections. */
  method WriteFields(before: seq<Byte>, importRVA: nat, importSize: nat, count: nat) returns (nt: seq<Byte>)
    requires |before| == NT_HEADERS && At(before, 20, LittleEndian(OPTIONAL_HEADER, 2))
    ensures NtFits(nt, count) && At(nt, IMPORT_DIRECTORY, LittleEndian(importRVA, 4))
    ensures At(nt, IMPORT_DIRECTORY + 4, LittleEndian(importSize, 4))
  {
    hide At, Written, LittleEndian;
    var rva, size, number := LittleEndian(importRVA, 4), LittleEndian(importSize, 4), LittleEndian(count, 2);
    ghost var kept := LittleEndian(OPTIONAL_HEADER, 2);
    FieldWritten(before, IMPORT_DIRECTORY, rva, 20, kept);
    nt := Overwrite(before, IMPORT_DIRECTORY, rva);
    FieldWritten(nt, IMPORT_DIRECTORY + 4, size, 20, kept);
    FieldWritten(nt, IMPORT_DIRECTORY + 4, size, IMPORT_DIRECTORY, rva);
    nt := Overwrite(nt, IMPORT_DIRECTORY + 4, size);
    FieldWritten(nt, 6, number, 20, kept);
    FieldWritten(nt, 6, number, IMPORT_DIRECTORY, rva);
    FieldWritten(nt, 6, number, IMPORT_DIRECTORY + 4, size);
    nt := Overwrite(nt, 6, number);
  }

  /** The size of the image; the other fields stay. */
  method WriteImageSize(before: seq<Byte>, imageSize: nat, count: nat, importRVA: nat, importSize: nat)
    returns (nt: seq<Byte>)
    requires NtFits(before, count) && At(before, IMPORT_DIRECTORY, LittleEndian(importRVA, 4))
    requires At(before, IMPORT_DIRECTORY + 4, LittleEndian(importSize, 4))
    ensures NtFits(nt, count) && At(nt, IMPORT_DIRECTORY, LittleEndian(importRVA, 4))
    ensures At(nt, IMPORT_DIRECTORY + 4, LittleEndian(importSize, 4)) && At(nt, IMAGE_SIZE, LittleEndian(imageSize, 4))
  {
    hide At, Written, LittleEndian;
    var size := LittleEndian(imageSize, 4);
    FieldWritten(before, IMAGE_SIZE, size, 6, LittleEndian(count, 2));
    FieldWritten(before, IMAGE_SIZE, size, 20, LittleEndian(OPTIONAL_HEADER, 2));
    FieldWritten(before, IMAGE_SIZE, size, IMPORT_DIRECTORY, LittleEndian(importRVA, 4));
    FieldWritten(before, IMAGE_SIZE, size, IMPORT_DIRECTORY + 4, LittleEndian(importSize, 4));
    nt := Overwrite(before, IMAGE_SIZE, size);
  }

  /** The imports are built for the address behind the exports. */
  function ImportRVA(exportSize: nat): nat {
    AlignUp(AlignUp(EXPORT_RVA + exportSize, 0x1000), 0x1000)
  }

  lemma FieldWritten(buffer: seq<Byte>, pos: nat, bytes: seq<Byte>, other: nat, kept: seq<Byte>)
    requires pos + |bytes| <= |buffer|
    ensures |Written(buffer, pos, bytes)| == |buffer| && At(Written(buffer, pos, bytes), pos, bytes)
    ensures At(buffer, other, kept) && (other + |kept| <= pos || pos + |bytes| <= other) ==>
              At(Written(buffer, pos, bytes), other, kept)
  {
    var after := Written(buffer, pos, bytes);
    assert after == buffer[..pos] + bytes + buffer[pos + |bytes|..];
    if At(buffer, other, kept) && (other + |kept| <= pos || pos + |bytes| <= other) {
      assert after[other..other + |kept|] == buffer[other..other + |kept|];
    }
  }

  // ----- the import directory -----

  /** The sections that every image gets, all of initialised data to be read: ".edata", ".idata", ".rdata". */
  function Closing(exports: seq<Byte>, imports: seq<Import>, exportSize: nat, strings: seq<Byte>): seq<Section> {
    [Section([46, 101, 100, 97, 116, 97], exports, 0x40000040),
     Section([46, 105, 100, 97, 116, 97], Image(imports, ImportRVA(exportSize)), 0x40000040),
     Section([46, 114, 100, 97, 116, 97], strings, 0x40000040)]
  }

  /** The imports are built for an address that is chosen before anything is placed. A loader that maps the
      section finds them there exactly when the sections before it, each rounded up, end at that address. */
  lemma ImportsAreWhereTheDirectorySays(own: seq<Section>, exports: seq<Byte>, imports: seq<Import>, exportSize: nat,
                                        strings: seq<Byte>, file: nat)
    requires file > 0
    ensures var all := own + Closing(exports, imports, exportSize, strings);
            var placed := PlacedSections(all, 0x1000, file);
            var before := own + [Section(EDATA, exports, READ_DATA)];
            var end := EndAddress(before, AlignUp(HeadersSize(|all|, file), 0x1000), 0x1000);
            |placed| > |before| && placed[|before|].section.name == IDATA
            && (placed[|before|].address == ImportRVA(exportSize) <==> end == ImportRVA(exportSize))
            && (end == ImportRVA(exportSize) && NulFreeNames(imports) && end + |placed[|before|].section.data| <= Range(4) ==>
                  var loaded := Load(placed[|before|].section.data, placed[|before|].address, 0);
                  loaded.Some? && |loaded.value| == |imports|
                  && forall i :: 0 <= i < |imports| ==> LoadedAs(loaded.value[i], imports[i]))
  {
    hide AlignUp, Image, Load, NulFreeNames, Expected, LoadedAs, Range, Place, EndAddress, HeadersSize, ImportRVA;
    var before := own + [Section(EDATA, exports, READ_DATA)];
    var rest := Closing(exports, imports, exportSize, strings)[1..];
    var all := own + Closing(exports, imports, exportSize, strings);
    assert all == before + rest;
    var size := HeadersSize(|all|, file);
    AddressBehind(before, rest, AlignUp(size, 0x1000), size, 0x1000, file);
    if NulFreeNames(imports) && ImportRVA(exportSize) + |Image(imports, ImportRVA(exportSize))| <= Range(4) {
      ImageLoads(imports, ImportRVA(exportSize));
    }
  }

  /** With code as the only other section, the imports are found as long as the code fits one page. */
  lemma ImportsNeedOnePageOfCode(code: Section, exports: seq<Byte>, imports: seq<Import>, exportSize: nat,
                                 strings: seq<Byte>, file: nat)
    requires file > 0 && HeadersSize(4, file) <= 0x1000
    requires 0 < |exports| <= 0x1000 && 0 < exportSize <= 0x1000
    ensures var placed := PlacedSections([code] + Closing(exports, imports, exportSize, strings), 0x1000, file);
            |placed| == 4 && (placed[2].address == ImportRVA(exportSize) <==> 0 < |code.data| <= 0x1000)
  {
    var edata := Section(EDATA, exports, READ_DATA);
    var all := [code] + Closing(exports, imports, exportSize, strings);
    var size := HeadersSize(4, file);
    FirstPage(size);
    FirstPage(|exports|);
    FirstPage(|code.data|);
    ExportsFitOnePage(exportSize);
    assert [code] + [edata] == [code, edata];
    ImportsAreWhereTheDirectorySays([code], exports, imports, exportSize, strings, file);
    TwoSections(code, edata, AlignUp(size, 0x1000));
    hide InOrder;
    PlacesAreInOrder(all, AlignUp(size, 0x1000), size, 0x1000, file);
  }

  lemma FirstPage(v: nat)
    ensures AlignUp(v, 0x1000) == 0x1000 <==> 0 < v <= 0x1000
  {
  }

  /** The imports are built for the first page behind the exports, which start at 0x2000. */
  lemma ImportsFollowExports(exportSize: nat)
    ensures ImportRVA(exportSize) % 0x1000 == 0
    ensures 0x2000 + exportSize <= ImportRVA(exportSize) < 0x2000 + exportSize + 0x1000
  {
  }

  lemma ExportsFitOnePage(exportSize: nat)
    requires 0 < exportSize <= 0x1000
    ensures ImportRVA(exportSize) == 0x3000
  {
  }

  lemma TwoSections(first: Section, second: Section, address: nat)
    requires address % 0x1000 == 0
    ensures EndAddress([first, second], address, 0x1000)
            == address + AlignUp(|first.data|, 0x1000) + AlignUp(|second.data|, 0x1000)
  {
    var middle := address + AlignUp(|first.data|, 0x1000);
    AlignedStays(middle, 0x1000);
    AlignedStays(middle + AlignUp(|second.data|, 0x1000), 0x1000);
    assert [first, second][1..] == [second] && [second][1..] == [];
    assert EndAddress([second], middle, 0x1000) == middle + AlignUp(|second.data|, 0x1000) by {
      hide AlignUp;
      assert EndAddress([], middle + AlignUp(|second.data|, 0x1000), 0x1000) == middle + AlignUp(|second.data|, 0x1000);
    }
    hide AlignUp;
  }
}
