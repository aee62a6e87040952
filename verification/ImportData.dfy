/** The import section of an executable: what a loader needs to find there, and the buffer that the
    linker fills. Descriptors come first, then the lookup table, the address table, and the names. */
module ImportData {
  import opened Options
  import opened Bytes

  datatype Import = Import(dll: seq<Byte>, functions: seq<seq<Byte>>)

  const DESCRIPTOR: nat := 20
  const THUNK: nat := 8

  /** "Unknown" and "dummy.dll" stand in for empty names. */
  const UNKNOWN: seq<Byte> := [85, 110, 107, 110, 111, 119, 110]
  const DUMMY: seq<Byte> := [100, 117, 109, 109, 121, 46, 100, 108, 108]

  function FunctionName(f: seq<Byte>): seq<Byte> {
    if f == [] then UNKNOWN else f
  }

  function DllName(d: seq<Byte>): seq<Byte> {
    if d == [] then DUMMY else d
  }

  // ----- the section as it should be -----

  function Even(bytes: seq<Byte>): seq<Byte> {
    if |bytes| % 2 == 1 then bytes + [0] else bytes
  }

  /** A hint of zero, the name, a zero byte. */
  function HintRecord(f: seq<Byte>): seq<Byte> {
    Even([0, 0] + FunctionName(f) + [0])
  }

  function DllRecord(d: seq<Byte>): seq<Byte> {
    Even(DllName(d) + [0])
  }

  function HintRecords(functions: seq<seq<Byte>>): seq<Byte> {
    if functions == [] then [] else HintRecord(functions[0]) + HintRecords(functions[1..])
  }

  function NamesOf(i: Import): seq<Byte> {
    HintRecords(i.functions) + DllRecord(i.dll)
  }

  function Names(imports: seq<Import>): seq<Byte> {
    if imports == [] then [] else NamesOf(imports[0]) + Names(imports[1..])
  }

  /** Addresses are computed in 32 bits. */
  function Thunk(rva: nat): (bytes: seq<Byte>)
    ensures |bytes| == THUNK
  {
    LittleEndian(rva % 0x1_0000_0000, THUNK)
  }

  /** A thunk for every function, with the address of its hint record, and a zero thunk. */
  function Thunks(functions: seq<seq<Byte>>, rva: nat): seq<Byte> {
    if functions == [] then Thunk(0)
    else Thunk(rva) + Thunks(functions[1..], rva + |HintRecord(functions[0])|)
  }

  function AllThunks(imports: seq<Import>, rva: nat): seq<Byte> {
    if imports == [] then []
    else Thunks(imports[0].functions, rva) + AllThunks(imports[1..], rva + |NamesOf(imports[0])|)
  }

  function Descriptor(lookup: nat, name: nat, addresses: nat): (d: seq<Byte>)
    ensures |d| == DESCRIPTOR
  {
    LittleEndian(lookup, 4) + LittleEndian(0, 4) + LittleEndian(0, 4) + LittleEndian(name, 4) + LittleEndian(addresses, 4)
  }

  function ThunkBytes(i: Import): nat {
    THUNK * (|i.functions| + 1)
  }

  /** A descriptor for every DLL, and a zero descriptor. */
  function Descriptors(imports: seq<Import>, lookup: nat, addresses: nat, rva: nat): seq<Byte> {
    if imports == [] then Zeros(DESCRIPTOR)
    else
      Descriptor(lookup, rva + |HintRecords(imports[0].functions)|, addresses)
      + Descriptors(imports[1..], lookup + ThunkBytes(imports[0]), addresses + ThunkBytes(imports[0]),
                    rva + |NamesOf(imports[0])|)
  }

  function TotalThunks(imports: seq<Import>): nat {
    if imports == [] then 0 else |imports[0].functions| + 1 + TotalThunks(imports[1..])
  }

  function LookupOffset(imports: seq<Import>): nat {
    AlignUp((|imports| + 1) * DESCRIPTOR, 8)
  }

  function AddressOffset(imports: seq<Import>): nat {
    LookupOffset(imports) + TotalThunks(imports) * THUNK
  }

  function NameOffset(imports: seq<Import>): nat {
    AlignUp(AddressOffset(imports) + TotalThunks(imports) * THUNK, 2)
  }

  /** Between the descriptors and the lookup table. */
  function Padding(imports: seq<Import>): nat {
    LookupOffset(imports) - (|imports| + 1) * DESCRIPTOR
  }

  function Joined(d: seq<Byte>, z: seq<Byte>, t: seq<Byte>, u: seq<Byte>, n: seq<Byte>): seq<Byte> {
    d + z + t + u + n
  }

  function Image(imports: seq<Import>, va: nat): seq<Byte> {
    var thunks := AllThunks(imports, va + NameOffset(imports));
    Joined(Descriptors(imports, va + LookupOffset(imports), va + AddressOffset(imports), va + NameOffset(imports)),
           Zeros(Padding(imports)), thunks, thunks, Names(imports))
  }

  // ----- bytes -----

  /** A hint record byte for byte: no hint, the name ("Unknown" if it is empty), and zeros up to an even size. */
  lemma HintRecordBytes(f: seq<Byte>)
    ensures var name := if f == [] then [85, 110, 107, 110, 111, 119, 110] else f;
            |name| + 3 <= |HintRecord(f)| <= |name| + 4 && |HintRecord(f)| % 2 == 0
            && forall k :: 0 <= k < |HintRecord(f)| ==>
                 HintRecord(f)[k] == if 2 <= k < |name| + 2 then name[k - 2] else 0
  {
  }

  /** A thunk holds the low 32 bits of an address, and zeros. */
  lemma ThunkBytesAre(rva: nat)
    ensures Thunk(rva) == LittleEndian(rva, 4) + [0, 0, 0, 0]
  {
    var low, high := rva % 0x1_0000_0000, rva / 0x1_0000_0000;
    assert Range(4) == 0x1_0000_0000;
    SameLowBytes(low, rva, 4, high);
    NothingAbove(low, 4, 4);
    assert Zeros(4) == [0, 0, 0, 0];
    hide LittleEndian;
  }

  lemma {:induction false} SameLowBytes(low: nat, n: nat, width: nat, high: nat)
    requires n == low + Range(width) * high
    ensures LittleEndian(n, width) == LittleEndian(low, width)
    decreases width
  {
    if width > 0 {
      var range := Range(width - 1);
      assert 256 * range * high == 256 * (range * high);
      SameLowBytes(low / 256, n / 256, width - 1, high);
    }
  }

  lemma {:induction false} NothingAbove(n: nat, width: nat, more: nat)
    requires n < Range(width)
    ensures LittleEndian(n, width + more) == LittleEndian(n, width) + Zeros(more)
    decreases width
  {
    if width == 0 {
      ZeroInBytes(more);
    } else {
      NothingAbove(n / 256, width - 1, more);
    }
  }

  /** The name of a DLL byte for byte: "dummy.dll" if it is empty, and zeros up to an even size. */
  lemma DllRecordBytes(d: seq<Byte>)
    ensures var name := if d == [] then [100, 117, 109, 109, 121, 46, 100, 108, 108] else d;
            |name| + 1 <= |DllRecord(d)| <= |name| + 2 && |DllRecord(d)| % 2 == 0
            && forall k :: 0 <= k < |DllRecord(d)| ==> DllRecord(d)[k] == if k < |name| then name[k] else 0
  {
  }

  /** The tables start at multiples of eight, behind the descriptors and one that is zero, and the names at an
      even offset behind them. */
  lemma TablesAreAligned(imports: seq<Import>)
    ensures LookupOffset(imports) % 8 == 0 && AddressOffset(imports) % 8 == 0 && NameOffset(imports) % 2 == 0
    ensures 20 * (|imports| + 1) <= LookupOffset(imports) < 20 * (|imports| + 1) + 8
    ensures AddressOffset(imports) == LookupOffset(imports) + 8 * TotalThunks(imports)
    ensures NameOffset(imports) == AddressOffset(imports) + 8 * TotalThunks(imports)
  {
    hide AlignUp, TotalThunks;
    NamesAreEven(imports);
  }

  /** A descriptor has no time stamp and forwards nothing. */
  lemma DescriptorBytes(lookup: nat, name: nat, addresses: nat, k: nat)
    requires 4 <= k < 12
    ensures Descriptor(lookup, name, addresses)[k] == 0
  {
    ZeroInBytes(4);
    hide LittleEndian;
    assert Descriptor(lookup, name, addresses)[k] == LittleEndian(0, 4)[if k < 8 then k - 4 else k - 8];
  }

  // ----- sizes -----

  lemma {:induction false} ThunksSize(functions: seq<seq<Byte>>, rva: nat)
    ensures |Thunks(functions, rva)| == THUNK * (|functions| + 1)
    decreases |functions|
  {
    if functions != [] {
      ThunksSize(functions[1..], rva + |HintRecord(functions[0])|);
    }
  }

  lemma {:induction false} AllThunksSize(imports: seq<Import>, rva: nat)
    ensures |AllThunks(imports, rva)| == TotalThunks(imports) * THUNK
    decreases |imports|
  {
    if imports != [] {
      ThunksSize(imports[0].functions, rva);
      AllThunksSize(imports[1..], rva + |NamesOf(imports[0])|);
    }
  }

  lemma {:induction false} DescriptorsSize(imports: seq<Import>, lookup: nat, addresses: nat, rva: nat)
    ensures |Descriptors(imports, lookup, addresses, rva)| == (|imports| + 1) * DESCRIPTOR
    decreases |imports|
  {
    if imports != [] {
      DescriptorsSize(imports[1..], lookup + ThunkBytes(imports[0]), addresses + ThunkBytes(imports[0]),
                      rva + |NamesOf(imports[0])|);
    }
  }

  lemma EvenAligned(lookup: nat, thunks: nat)
    requires lookup % 8 == 0
    ensures AlignUp(lookup + thunks * THUNK + thunks * THUNK, 2) == lookup + thunks * THUNK + thunks * THUNK
  {
  }

  lemma NamesAreEven(imports: seq<Import>)
    ensures NameOffset(imports) == AddressOffset(imports) + TotalThunks(imports) * THUNK
  {
    EvenAligned(LookupOffset(imports), TotalThunks(imports));
  }

  // ----- a loader -----

  /** What a loader learns about one DLL: its name, and its functions from either table. */
  datatype Loaded = Loaded(dll: seq<Byte>, lookup: seq<seq<Byte>>, addresses: seq<seq<Byte>>)

  function Offset(rva: nat, va: nat): nat {
    if rva >= va then rva - va else 0
  }

  /** The names behind the thunks from `pos` up to the zero thunk. */
  function LoadThunks(buffer: seq<Byte>, va: nat, pos: nat): Option<seq<seq<Byte>>>
    decreases |buffer| - pos
  {
    var thunk := ReadNumber(buffer, pos, THUNK);
    if thunk.None? then None
    else if thunk.value == 0 then Some([])
    else
      var name := ReadString(buffer, Offset(thunk.value, va) + 2);
      var rest := LoadThunks(buffer, va, pos + THUNK);
      if name.None? || rest.None? then None else Some([name.value] + rest.value)
  }

  function LoadOne(buffer: seq<Byte>, va: nat, pos: nat): Option<Loaded>
    requires pos + DESCRIPTOR <= |buffer|
  {
    var lookup := LoadThunks(buffer, va, Offset(Number(buffer[pos..pos + 4]), va));
    var name := ReadString(buffer, Offset(Number(buffer[pos + 12..pos + 16]), va));
    var addresses := LoadThunks(buffer, va, Offset(Number(buffer[pos + 16..pos + 20]), va));
    if lookup.None? || name.None? || addresses.None? then None
    else Some(Loaded(name.value, lookup.value, addresses.value))
  }

  /** The DLLs from the descriptor at `pos` up to the zero descriptor. */
  function Load(buffer: seq<Byte>, va: nat, pos: nat): Option<seq<Loaded>>
    decreases |buffer| - pos
  {
    if pos + DESCRIPTOR > |buffer| then None
    else if buffer[pos..pos + DESCRIPTOR] == Zeros(DESCRIPTOR) then Some([])
    else
      var first := LoadOne(buffer, va, pos);
      var rest := Load(buffer, va, pos + DESCRIPTOR);
      if first.None? || rest.None? then None else Some([first.value] + rest.value)
  }

  function FunctionNames(functions: seq<seq<Byte>>): seq<seq<Byte>> {
    if functions == [] then [] else [FunctionName(functions[0])] + FunctionNames(functions[1..])
  }

  /** Loaded under its names, and in the order it was imported; "dummy.dll" and "Unknown" where names are empty. */
  ghost predicate LoadedAs(l: Loaded, i: Import) {
    l.dll == (if i.dll == [] then [100, 117, 109, 109, 121, 46, 100, 108, 108] else i.dll)
    && l.lookup == l.addresses && |l.lookup| == |i.functions|
    && forall k :: 0 <= k < |i.functions| ==>
         l.lookup[k] == if i.functions[k] == [] then [85, 110, 107, 110, 111, 119, 110] else i.functions[k]
  }

  /** The imports with empty names replaced. */
  function Expected(imports: seq<Import>): seq<Loaded> {
    if imports == [] then []
    else
      [Loaded(DllName(imports[0].dll), FunctionNames(imports[0].functions), FunctionNames(imports[0].functions))]
      + Expected(imports[1..])
  }

  lemma {:induction false} NamesStay(functions: seq<seq<Byte>>)
    ensures |FunctionNames(functions)| == |functions|
    ensures forall k :: 0 <= k < |functions| ==>
              FunctionNames(functions)[k]
              == if functions[k] == [] then [85, 110, 107, 110, 111, 119, 110] else functions[k]
    decreases |functions|
  {
    if functions != [] {
      NamesStay(functions[1..]);
    }
  }

  lemma {:induction false} ExpectedAre(imports: seq<Import>)
    ensures |Expected(imports)| == |imports|
    ensures forall i :: 0 <= i < |imports| ==> LoadedAs(Expected(imports)[i], imports[i])
    decreases |imports|
  {
    hide FunctionNames, LoadedAs, DllName;
    if imports != [] {
      FirstExpected(imports[0]);
      ExpectedAre(imports[1..]);
      forall i | 0 <= i < |imports|
        ensures LoadedAs(Expected(imports)[i], imports[i])
      {
        assert i > 0 ==> Expected(imports)[i] == Expected(imports[1..])[i - 1];
      }
    }
  }

  lemma FirstExpected(i: Import)
    ensures LoadedAs(Loaded(DllName(i.dll), FunctionNames(i.functions), FunctionNames(i.functions)), i)
  {
    NamesStay(i.functions);
  }

  ghost predicate NulFreeNames(imports: seq<Import>) {
    forall i :: 0 <= i < |imports| ==>
      NulFree(imports[i].dll) && forall k :: 0 <= k < |imports[i].functions| ==> NulFree(imports[i].functions[k])
  }

  lemma HintRecordReads(buffer: seq<Byte>, pos: nat, f: seq<Byte>)
    requires At(buffer, pos, HintRecord(f)) && NulFree(f)
    ensures ReadString(buffer, pos + 2) == Some(FunctionName(f))
  {
    var named := FunctionName(f) + [0];
    var record := [0, 0] + FunctionName(f) + [0];
    assert record == [0, 0] + named;
    if |record| % 2 == 1 {
      AtConcat(buffer, pos, record, [0]);
    }
    AtConcat(buffer, pos, [0, 0], named);
    ReadsString(buffer, pos + 2, FunctionName(f));
  }

  lemma HintRecordWithin(buffer: seq<Byte>, pos: nat, f: seq<Byte>)
    requires At(buffer, pos, HintRecord(f))
    ensures pos < |buffer|
  {
  }

  lemma DllRecordReads(buffer: seq<Byte>, pos: nat, d: seq<Byte>)
    requires At(buffer, pos, DllRecord(d)) && NulFree(d)
    ensures pos < |buffer| && ReadString(buffer, pos) == Some(DllName(d))
  {
    if |DllName(d) + [0]| % 2 == 1 {
      AtConcat(buffer, pos, DllName(d) + [0], [0]);
    }
    ReadsString(buffer, pos, DllName(d));
  }

  lemma WordRange()
    ensures 0 < Range(4) == 0x1_0000_0000 <= Range(8)
  {
    assert Range(4) == 256 * Range(3) && Range(3) == 256 * Range(2) && Range(2) == 256 * Range(1) && Range(1) == 256 * Range(0);
    assert Range(8) == 256 * 256 * 256 * 256 * Range(4) by {
      assert Range(8) == 256 * Range(7) && Range(7) == 256 * Range(6) && Range(6) == 256 * Range(5) && Range(5) == 256 * Range(4);
    }
  }

  lemma ThunkHolds(rva: nat)
    requires rva < Range(4)
    ensures Thunk(rva) == LittleEndian(rva, THUNK) && rva < Range(THUNK)
  {
    hide LittleEndian;
    WordRange();
  }

  /** The thunk at `pos` leads to the record at `names`. */
  lemma ThunkReads(buffer: seq<Byte>, va: nat, pos: nat, f: seq<Byte>, names: nat)
    requires At(buffer, pos, Thunk(va + names)) && At(buffer, names, HintRecord(f)) && NulFree(f)
    requires va + |buffer| <= Range(4)
    ensures ReadNumber(buffer, pos, THUNK) == Some(va + names)
    ensures ReadString(buffer, Offset(va + names, va) + 2) == Some(FunctionName(f))
  {
    hide At, NulFree, Thunk, LittleEndian, HintRecord, FunctionName, ReadString, ReadNumber, Range;
    HintRecordWithin(buffer, names, f);
    ThunkHolds(va + names);
    HintRecordReads(buffer, names, f);
    ReadsNumber(buffer, pos, va + names, THUNK);
  }

  lemma ZeroThunkReads(buffer: seq<Byte>, pos: nat)
    requires At(buffer, pos, Thunk(0))
    ensures ReadNumber(buffer, pos, THUNK) == Some(0)
  {
    WordRange();
    ReadsNumber(buffer, pos, 0, THUNK);
  }

  lemma {:induction false} ThunksLoad(buffer: seq<Byte>, va: nat, pos: nat, functions: seq<seq<Byte>>, names: nat)
    requires At(buffer, pos, Thunks(functions, va + names)) && At(buffer, names, HintRecords(functions))
    requires 0 < names && va + |buffer| <= Range(4)
    requires forall k :: 0 <= k < |functions| ==> NulFree(functions[k])
    ensures LoadThunks(buffer, va, pos) == Some(FunctionNames(functions))
    decreases |functions|
  {
    hide Even, HintRecord, FunctionName, Number, Thunk, ReadString, ReadNumber;
    if functions == [] {
      ZeroThunkReads(buffer, pos);
    } else {
      var rest := names + |HintRecord(functions[0])|;
      AtConcat(buffer, pos, Thunk(va + names), Thunks(functions[1..], va + rest));
      AtConcat(buffer, names, HintRecord(functions[0]), HintRecords(functions[1..]));
      ThunkReads(buffer, va, pos, functions[0], names);
      ThunksLoad(buffer, va, pos + THUNK, functions[1..], rest);
    }
  }

  lemma ThunksWithin(buffer: seq<Byte>, pos: nat, functions: seq<seq<Byte>>, rva: nat)
    requires At(buffer, pos, Thunks(functions, rva))
    ensures pos < |buffer|
  {
    ThunksSize(functions, rva);
  }

  lemma DescriptorReads(buffer: seq<Byte>, pos: nat, lookup: nat, name: nat, addresses: nat)
    requires At(buffer, pos, Descriptor(lookup, name, addresses))
    requires 0 < lookup < Range(4) && name < Range(4) && addresses < Range(4)
    ensures pos + DESCRIPTOR <= |buffer|
    ensures Number(buffer[pos..pos + 4]) == lookup && Number(buffer[pos + 12..pos + 16]) == name
    ensures Number(buffer[pos + 16..pos + 20]) == addresses
    ensures buffer[pos..pos + DESCRIPTOR] != Zeros(DESCRIPTOR)
  {
    hide LittleEndian;
    var a, z := LittleEndian(lookup, 4), LittleEndian(0, 4);
    var n, b := LittleEndian(name, 4), LittleEndian(addresses, 4);
    AtConcat(buffer, pos, a + z + z + n, b);
    AtConcat(buffer, pos, a + z + z, n);
    AtConcat(buffer, pos, a + z, z);
    AtConcat(buffer, pos, a, z);
    NumberReadsBack(lookup, 4);
    NumberReadsBack(name, 4);
    NumberReadsBack(addresses, 4);
    if buffer[pos..pos + DESCRIPTOR] == Zeros(DESCRIPTOR) {
      assert a == buffer[pos..pos + DESCRIPTOR][..4] == Zeros(4);
      ZerosAreZero(4);
    }
  }

  lemma {:induction false} ZerosAreZero(n: nat)
    ensures Number(Zeros(n)) == 0
    decreases n
  {
    if n > 0 {
      assert Zeros(n)[1..] == Zeros(n - 1);
      ZerosAreZero(n - 1);
    }
  }

  /** Where the parts of the section are. */
  ghost predicate Placed(buffer: seq<Byte>, va: nat, imports: seq<Import>, pos: nat, lookup: nat, addresses: nat,
                         names: nat) {
    At(buffer, pos, Descriptors(imports, va + lookup, va + addresses, va + names))
    && At(buffer, lookup, AllThunks(imports, va + names)) && At(buffer, addresses, AllThunks(imports, va + names))
    && At(buffer, names, Names(imports))
  }

  lemma FirstDescriptor(buffer: seq<Byte>, imports: seq<Import>, pos: nat, lookup: nat, addresses: nat, rva: nat)
    requires imports != [] && At(buffer, pos, Descriptors(imports, lookup, addresses, rva))
    ensures var first := imports[0];
            At(buffer, pos, Descriptor(lookup, rva + |HintRecords(first.functions)|, addresses))
            && At(buffer, pos + DESCRIPTOR,
                  Descriptors(imports[1..], lookup + ThunkBytes(first), addresses + ThunkBytes(first), rva + |NamesOf(first)|))
  {
    hide Descriptor, NamesOf, HintRecords, At, LittleEndian;
    var first := imports[0];
    AtConcat(buffer, pos, Descriptor(lookup, rva + |HintRecords(first.functions)|, addresses),
             Descriptors(imports[1..], lookup + ThunkBytes(first), addresses + ThunkBytes(first), rva + |NamesOf(first)|));
  }

  lemma FirstThunks(buffer: seq<Byte>, imports: seq<Import>, pos: nat, rva: nat)
    requires imports != [] && At(buffer, pos, AllThunks(imports, rva))
    ensures At(buffer, pos, Thunks(imports[0].functions, rva))
    ensures At(buffer, pos + ThunkBytes(imports[0]), AllThunks(imports[1..], rva + |NamesOf(imports[0])|))
  {
    hide Thunks, NamesOf, At;
    ThunksSize(imports[0].functions, rva);
    AtConcat(buffer, pos, Thunks(imports[0].functions, rva), AllThunks(imports[1..], rva + |NamesOf(imports[0])|));
  }

  lemma FirstNames(buffer: seq<Byte>, imports: seq<Import>, pos: nat)
    requires imports != [] && At(buffer, pos, Names(imports))
    ensures At(buffer, pos, HintRecords(imports[0].functions))
    ensures At(buffer, pos + |HintRecords(imports[0].functions)|, DllRecord(imports[0].dll))
    ensures At(buffer, pos + |NamesOf(imports[0])|, Names(imports[1..]))
  {
    hide HintRecord, HintRecords, DllRecord, Even, DllName, FunctionName;
    AtThree(buffer, pos, HintRecords(imports[0].functions), DllRecord(imports[0].dll), Names(imports[1..]));
  }

  /** The parts of one DLL. */
  ghost predicate FirstIsPlaced(buffer: seq<Byte>, va: nat, first: Import, pos: nat, lookup: nat, addresses: nat,
                                names: nat) {
    At(buffer, pos, Descriptor(va + lookup, va + names + |HintRecords(first.functions)|, va + addresses))
    && At(buffer, lookup, Thunks(first.functions, va + names)) && At(buffer, addresses, Thunks(first.functions, va + names))
    && At(buffer, names, HintRecords(first.functions))
    && At(buffer, names + |HintRecords(first.functions)|, DllRecord(first.dll))
  }

  lemma PlacedSplits(buffer: seq<Byte>, va: nat, imports: seq<Import>, pos: nat, lookup: nat, addresses: nat, names: nat)
    requires Placed(buffer, va, imports, pos, lookup, addresses, names) && imports != []
    ensures FirstIsPlaced(buffer, va, imports[0], pos, lookup, addresses, names)
    ensures Placed(buffer, va, imports[1..], pos + DESCRIPTOR, lookup + ThunkBytes(imports[0]),
                   addresses + ThunkBytes(imports[0]), names + |NamesOf(imports[0])|)
  {
    hide At, Descriptor, Descriptors, Thunks, AllThunks, Names, ThunkBytes, HintRecord, HintRecords, DllRecord, NamesOf;
    FirstDescriptor(buffer, imports, pos, va + lookup, va + addresses, va + names);
    FirstThunks(buffer, imports, lookup, va + names);
    FirstThunks(buffer, imports, addresses, va + names);
    FirstNames(buffer, imports, names);
  }

  /** What a loader reads from the descriptor at `pos`, where its parts are placed. */
  lemma FirstLoads(buffer: seq<Byte>, va: nat, first: Import, pos: nat, lookup: nat, addresses: nat, names: nat)
    requires FirstIsPlaced(buffer, va, first, pos, lookup, addresses, names)
    requires NulFree(first.dll) && forall k :: 0 <= k < |first.functions| ==> NulFree(first.functions[k])
    requires 0 < lookup && 0 < names && va + |buffer| <= Range(4)
    ensures pos + DESCRIPTOR <= |buffer| && buffer[pos..pos + DESCRIPTOR] != Zeros(DESCRIPTOR)
    ensures LoadOne(buffer, va, pos)
            == Some(Loaded(DllName(first.dll), FunctionNames(first.functions), FunctionNames(first.functions)))
  {
    hide At, HintRecord, HintRecords, DllRecord, DllName, FunctionName, Thunks, Descriptor, LoadThunks, ReadString;
    hide FunctionNames, Number, LittleEndian, Range;
    var hints := |HintRecords(first.functions)|;
    ThunksWithin(buffer, lookup, first.functions, va + names);
    ThunksWithin(buffer, addresses, first.functions, va + names);
    DllRecordReads(buffer, names + hints, first.dll);
    DescriptorReads(buffer, pos, va + lookup, va + names + hints, va + addresses);
    ThunksLoad(buffer, va, lookup, first.functions, names);
    ThunksLoad(buffer, va, addresses, first.functions, names);
  }

  lemma {:induction false} DescriptorsLoad(buffer: seq<Byte>, va: nat, imports: seq<Import>, pos: nat, lookup: nat,
                                           addresses: nat, names: nat)
    requires Placed(buffer, va, imports, pos, lookup, addresses, names) && NulFreeNames(imports)
    requires 0 < lookup && 0 < names && va + |buffer| <= Range(4)
    ensures Load(buffer, va, pos) == Some(Expected(imports))
    decreases |imports|
  {
    hide FirstIsPlaced, LoadOne, AllThunks, Names, DllName, HintRecords, NamesOf, FunctionNames, ThunkBytes;
    if imports == [] {
      assert At(buffer, pos, Zeros(DESCRIPTOR));
    } else {
      hide Placed, Descriptors, At;
      PlacedSplits(buffer, va, imports, pos, lookup, addresses, names);
      FirstLoads(buffer, va, imports[0], pos, lookup, addresses, names);
      DescriptorsLoad(buffer, va, imports[1..], pos + DESCRIPTOR, lookup + ThunkBytes(imports[0]),
                      addresses + ThunkBytes(imports[0]), names + |NamesOf(imports[0])|);
    }
  }

  lemma FivePieces(d: seq<Byte>, z: seq<Byte>, t: seq<Byte>, u: seq<Byte>, n: seq<Byte>)
    ensures var whole := Joined(d, z, t, u, n);
            At(whole, 0, d) && At(whole, |d| + |z|, t) && At(whole, |d| + |z| + |t|, u)
            && At(whole, |d| + |z| + |t| + |u|, n) && |whole| == |d| + |z| + |t| + |u| + |n|
  {
    hide At;
    assert d + z + t + u + n == [] + d + (z + t + u + n);
    AtMiddle([], d, z + t + u + n);
    assert d + z + t + u + n == (d + z) + t + (u + n);
    AtMiddle(d + z, t, u + n);
    AtMiddle(d + z + t, u, n);
    assert d + z + t + u + n == (d + z + t + u) + n + [];
    AtMiddle(d + z + t + u, n, []);
  }

  /** The offsets computed beforehand are the sizes of what is written. */
  lemma PiecesFit(imports: seq<Import>, va: nat, d: seq<Byte>, t: seq<Byte>)
    requires d == Descriptors(imports, va + LookupOffset(imports), va + AddressOffset(imports), va + NameOffset(imports))
    requires t == AllThunks(imports, va + NameOffset(imports))
    ensures |d| + |Zeros(Padding(imports))| == LookupOffset(imports)
    ensures LookupOffset(imports) + |t| == AddressOffset(imports)
    ensures AddressOffset(imports) + |t| == NameOffset(imports)
  {
    DescriptorsSize(imports, va + LookupOffset(imports), va + AddressOffset(imports), va + NameOffset(imports));
    AllThunksSize(imports, va + NameOffset(imports));
    NamesAreEven(imports);
  }

  lemma ImagePlaces(imports: seq<Import>, va: nat)
    ensures Placed(Image(imports, va), va, imports, 0, LookupOffset(imports), AddressOffset(imports), NameOffset(imports))
    ensures |Image(imports, va)| == NameOffset(imports) + |Names(imports)|
  {
    hide At, Joined, Padding, Descriptors, AllThunks, Names, LookupOffset, AddressOffset, NameOffset;
    var d := Descriptors(imports, va + LookupOffset(imports), va + AddressOffset(imports), va + NameOffset(imports));
    var t := AllThunks(imports, va + NameOffset(imports));
    PiecesFit(imports, va, d, t);
    FivePieces(d, Zeros(Padding(imports)), t, t, Names(imports));
  }

  /** A loader that walks the section finds every DLL and every function, in order and under its own name, from
      the lookup table and from the address table alike. */
  lemma ImageLoads(imports: seq<Import>, va: nat)
    requires NulFreeNames(imports) && va + |Image(imports, va)| <= Range(4)
    ensures Load(Image(imports, va), va, 0) == Some(Expected(imports))
    ensures |Expected(imports)| == |imports|
    ensures forall i :: 0 <= i < |imports| ==> LoadedAs(Expected(imports)[i], imports[i])
  {
    ExpectedAre(imports);
    hide LoadedAs, Expected;
    ImagePlaces(imports, va);
    DescriptorsLoad(Image(imports, va), va, imports, 0, LookupOffset(imports), AddressOffset(imports),
                    NameOffset(imports));
  }
}
