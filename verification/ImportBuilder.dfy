/** How the linker fills the import section: offsets advance through three regions of one buffer,
    and the names grow at its end. */
module ImportBuilder {
  import opened Options
  import opened Bytes
  import opened ImportData

  // ----- the writes -----

  method EnsureSize(buffer: seq<Byte>, size: nat) returns (grown: seq<Byte>)
    ensures grown == Grown(buffer, size)
  {
    grown := buffer;
    if |buffer| < size {
      grown := buffer + Zeros(size - |buffer|);
    }
  }

  method Overwrite(buffer: seq<Byte>, pos: nat, bytes: seq<Byte>) returns (written: seq<Byte>)
    ensures written == Written(buffer, pos, bytes)
  {
    var grown := EnsureSize(buffer, pos + |bytes|);
    written := grown[..pos] + bytes + grown[pos + |bytes|..];
  }

  lemma WrittenBelow(buffer: seq<Byte>, size: nat, pos: nat, bytes: seq<Byte>)
    requires pos + |bytes| <= |buffer| <= size
    ensures |Written(buffer, pos, bytes)| == |buffer|
    ensures Grown(Written(buffer, pos, bytes), size) == Written(Grown(buffer, size), pos, bytes)
  {
    assert Grown(buffer, size) == buffer + Zeros(size - |buffer|);
    var w := Written(buffer, pos, bytes);
    assert Grown(w, size) == w + Zeros(size - |buffer|);
  }

  lemma WrittenBeyond(buffer: seq<Byte>, size: nat, bytes: seq<Byte>)
    requires |buffer| <= size
    ensures Written(buffer, size, bytes) == Grown(buffer, size) + bytes
  {
    WritesEnd(buffer, size, bytes);
  }

  // ----- the section while it is being filled -----

  /** Descriptors, thunks (the same in both tables) and names so far, and the room left in each region. */
  datatype Draft = Draft(descriptors: seq<Byte>, room: nat, thunks: seq<Byte>, slots: nat, names: seq<Byte>)

  function Flat(s: Draft): seq<Byte> {
    s.descriptors + Zeros(s.room) + s.thunks + Zeros(s.slots) + s.thunks + Zeros(s.slots) + s.names
  }

  function LookupAt(s: Draft): nat {
    |s.descriptors| + s.room + |s.thunks|
  }

  function AddressAt(s: Draft): nat {
    LookupAt(s) + s.slots + |s.thunks|
  }

  function NamesAt(s: Draft): nat {
    AddressAt(s) + s.slots
  }

  function AddDescriptor(s: Draft, bytes: seq<Byte>): Draft
    requires |bytes| <= s.room
  {
    s.(descriptors := s.descriptors + bytes, room := s.room - |bytes|)
  }

  function AddThunk(s: Draft, bytes: seq<Byte>): Draft
    requires |bytes| <= s.slots
  {
    s.(thunks := s.thunks + bytes, slots := s.slots - |bytes|)
  }

  function AddName(s: Draft, bytes: seq<Byte>): Draft {
    s.(names := s.names + bytes)
  }

  lemma DescriptorAdds(s: Draft, bytes: seq<Byte>)
    requires |bytes| <= s.room
    ensures Written(Flat(s), |s.descriptors|, bytes) == Flat(AddDescriptor(s, bytes))
  {
    var after := s.thunks + Zeros(s.slots) + s.thunks + Zeros(s.slots) + s.names;
    assert Flat(s) == s.descriptors + Zeros(s.room) + after;
    WritesNext(s.descriptors, bytes, s.room, after);
    assert Flat(AddDescriptor(s, bytes)) == s.descriptors + bytes + Zeros(s.room - |bytes|) + after;
  }

  function Half(s: Draft, bytes: seq<Byte>): seq<Byte>
    requires |bytes| <= s.slots
  {
    s.descriptors + Zeros(s.room) + s.thunks + bytes + Zeros(s.slots - |bytes|) + (s.thunks + Zeros(s.slots) + s.names)
  }

  lemma FirstHalf(s: Draft, bytes: seq<Byte>)
    requires |bytes| <= s.slots
    ensures Written(Flat(s), LookupAt(s), bytes) == Half(s, bytes)
  {
    var before, after := s.descriptors + Zeros(s.room) + s.thunks, s.thunks + Zeros(s.slots) + s.names;
    assert Flat(s) == before + Zeros(s.slots) + after;
    WritesNext(before, bytes, s.slots, after);
  }

  lemma SecondHalf(s: Draft, bytes: seq<Byte>)
    requires |bytes| <= s.slots
    ensures Written(Half(s, bytes), AddressAt(s), bytes) == Flat(AddThunk(s, bytes))
  {
    var before := s.descriptors + Zeros(s.room) + (s.thunks + bytes) + Zeros(s.slots - |bytes|) + s.thunks;
    assert Half(s, bytes) == before + Zeros(s.slots) + s.names;
    WritesNext(before, bytes, s.slots, s.names);
  }

  /** The buffer holds this section, with the names up to `size`. */
  ghost predicate Holds(buffer: seq<Byte>, size: nat, s: Draft) {
    Grown(buffer, size) == Flat(s) && NamesAt(s) <= |buffer| <= size == NamesAt(s) + |s.names|
  }

  lemma HoldsDescriptor(buffer: seq<Byte>, size: nat, s: Draft, bytes: seq<Byte>)
    requires Holds(buffer, size, s) && |bytes| <= s.room
    ensures Holds(Written(buffer, |s.descriptors|, bytes), size, AddDescriptor(s, bytes))
  {
    hide Flat, Written, Grown;
    WrittenBelow(buffer, size, |s.descriptors|, bytes);
    DescriptorAdds(s, bytes);
  }

  lemma HoldsThunk(buffer: seq<Byte>, size: nat, s: Draft, bytes: seq<Byte>)
    requires Holds(buffer, size, s) && |bytes| <= s.slots
    ensures Holds(Written(Written(buffer, LookupAt(s), bytes), AddressAt(s), bytes), size, AddThunk(s, bytes))
  {
    hide Flat, Written, Grown, Half;
    var once := Written(buffer, LookupAt(s), bytes);
    WrittenBelow(buffer, size, LookupAt(s), bytes);
    WrittenBelow(once, size, AddressAt(s), bytes);
    FirstHalf(s, bytes);
    SecondHalf(s, bytes);
  }

  lemma NameAdds(s: Draft, bytes: seq<Byte>)
    ensures Flat(s) + bytes == Flat(AddName(s, bytes))
  {
  }

  lemma FlatSize(s: Draft)
    ensures |Flat(s)| == NamesAt(s) + |s.names|
  {
  }

  lemma GrownEven(whole: seq<Byte>, bytes: seq<Byte>)
    ensures Grown(whole + bytes, |whole| + |Even(bytes)|) == whole + Even(bytes)
  {
  }

  lemma EvenSize(size: nat, bytes: seq<Byte>)
    requires size % 2 == 0
    ensures AlignUp(size + |bytes|, 2) == size + |Even(bytes)| && |Even(bytes)| % 2 == 0
  {
  }

  /** Names are rounded up to an even size, though the last rounding is only made by the next write. */
  lemma HoldsName(buffer: seq<Byte>, size: nat, s: Draft, bytes: seq<Byte>)
    requires Holds(buffer, size, s) && size % 2 == 0
    ensures Holds(Written(buffer, size, bytes), AlignUp(size + |bytes|, 2), AddName(s, Even(bytes)))
    ensures AlignUp(size + |bytes|, 2) == size + |Even(bytes)| && |Even(bytes)| % 2 == 0
  {
    hide Flat, Written;
    WrittenBeyond(buffer, size, bytes);
    NameAdds(s, Even(bytes));
    FlatSize(s);
    GrownEven(Flat(s), bytes);
    EvenSize(size, bytes);
  }

  lemma GrownExactly(buffer: seq<Byte>, size: nat)
    requires |buffer| <= size
    ensures |Grown(buffer, size)| == size && (|buffer| == size ==> Grown(buffer, size) == buffer)
  {
  }

  lemma WritesJoin(buffer: seq<Byte>, size: nat, first: seq<Byte>, second: seq<Byte>)
    requires |buffer| <= size
    ensures Written(Written(buffer, size, first), size + |first|, second) == Written(buffer, size, first + second)
  {
    hide Written, Grown;
    var grown := Grown(buffer, size);
    var once := grown + first;
    GrownExactly(buffer, size);
    GrownExactly(once, size + |first|);
    WrittenBeyond(buffer, size, first);
    WrittenBeyond(once, size + |first|, second);
    WrittenBeyond(buffer, size, first + second);
    assert grown + first + second == grown + (first + second);
  }

  // ----- what is left to write -----

  function End(s: Draft): nat {
    NamesAt(s) + |s.names|
  }

  /** Of the functions of a DLL that was begun at `start`, these are left. */
  ghost predicate Within(va: nat, functions: seq<seq<Byte>>, left: seq<seq<Byte>>, s: Draft, start: Draft) {
    s.descriptors == start.descriptors && s.room == start.room && NamesAt(s) == NamesAt(start)
    && s.thunks + Thunks(left, va + End(s)) == start.thunks + Thunks(functions, va + End(start))
    && s.names + HintRecords(left) == start.names + HintRecords(functions)
    && s.slots - THUNK * |left| == start.slots - THUNK * |functions| >= THUNK
  }

  /** Of the DLLs, these are left. */
  ghost predicate Between(va: nat, imports: seq<Import>, left: seq<Import>, s: Draft) {
    var start := va + NameOffset(imports);
    s.descriptors + Descriptors(left, va + LookupAt(s), va + AddressAt(s), va + End(s))
    == Descriptors(imports, va + LookupOffset(imports), va + AddressOffset(imports), start)
    && s.thunks + AllThunks(left, va + End(s)) == AllThunks(imports, start)
    && s.names + Names(left) == Names(imports)
    && NamesAt(s) == NameOffset(imports) && s.slots == TotalThunks(left) * THUNK
    && s.room == Padding(imports) + (|left| + 1) * DESCRIPTOR
  }

  lemma WithinStarts(va: nat, imports: seq<Import>, left: seq<Import>, s: Draft)
    requires Between(va, imports, left, s) && left != []
    ensures Within(va, left[0].functions, left[0].functions, s, s)
  {
    hide Descriptors, AllThunks, Names, Padding, NameOffset;
  }

  lemma NextFunction(va: nat, functions: seq<seq<Byte>>, left: seq<seq<Byte>>, s: Draft, start: Draft)
    requires Within(va, functions, left, s, start) && left != []
    ensures THUNK <= s.slots
    ensures Within(va, functions, left[1..], AddName(AddThunk(s, Thunk(va + End(s))), HintRecord(left[0])), start)
  {
    hide Thunk, HintRecord;
    var record, thunk, after := HintRecord(left[0]), Thunk(va + End(s)), va + End(s) + |HintRecord(left[0])|;
    assert s.thunks + (thunk + Thunks(left[1..], after)) == s.thunks + thunk + Thunks(left[1..], after);
    assert s.names + (record + HintRecords(left[1..])) == s.names + record + HintRecords(left[1..]);
  }

  function Closed(s: Draft, descriptor: seq<Byte>, dll: seq<Byte>): Draft
    requires THUNK <= s.slots && |descriptor| <= s.room
  {
    AddDescriptor(AddName(AddThunk(s, Thunk(0)), DllRecord(dll)), descriptor)
  }

  lemma WithinEnds(va: nat, functions: seq<seq<Byte>>, s: Draft, start: Draft)
    requires Within(va, functions, [], s, start)
    ensures s.thunks + Thunk(0) == start.thunks + Thunks(functions, va + End(start))
    ensures s.names == start.names + HintRecords(functions) && THUNK <= s.slots
    ensures s.slots == start.slots - THUNK * |functions|
  {
  }

  lemma NextDll(va: nat, imports: seq<Import>, left: seq<Import>, s: Draft, start: Draft)
    requires Between(va, imports, left, start) && left != [] && Within(va, left[0].functions, [], s, start)
    ensures THUNK <= s.slots && DESCRIPTOR <= s.room
    ensures Between(va, imports, left[1..],
                    Closed(s, Descriptor(va + LookupAt(start), va + End(s), va + AddressAt(start)), left[0].dll))
  {
    hide Thunk, Thunks, HintRecord, HintRecords, DllRecord, Descriptor, LookupOffset, AddressOffset, NameOffset, Padding;
    hide Descriptors, AllThunks, Names;
    var functions, hints, dll := left[0].functions, HintRecords(left[0].functions), DllRecord(left[0].dll);
    ThunksSize(functions, va + End(start));
    WithinEnds(va, functions, s, start);
    var d := Descriptor(va + LookupAt(start), va + End(s), va + AddressAt(start));
    var next := Closed(s, d, left[0].dll);
    assert next.names == start.names + NamesOf(left[0]) by {
      assert start.names + hints + dll == start.names + (hints + dll);
    }
    assert End(next) == End(start) + |NamesOf(left[0])|;
    assert next.slots == TotalThunks(left[1..]) * THUNK;
    DescriptorStep(start.descriptors, d, left, va + LookupAt(start), va + AddressAt(start), va + End(start));
    NamesStep(start.names, left);
    ThunksStep(start.thunks, left, va + End(start));
  }

  lemma NamesStep(before: seq<Byte>, left: seq<Import>)
    requires left != []
    ensures before + Names(left) == before + NamesOf(left[0]) + Names(left[1..])
  {
    hide NamesOf;
    assert before + (NamesOf(left[0]) + Names(left[1..])) == before + NamesOf(left[0]) + Names(left[1..]);
  }

  lemma ThunksStep(before: seq<Byte>, left: seq<Import>, rva: nat)
    requires left != []
    ensures before + AllThunks(left, rva)
            == before + Thunks(left[0].functions, rva) + AllThunks(left[1..], rva + |NamesOf(left[0])|)
  {
    hide Thunks, NamesOf;
    var first, rest := Thunks(left[0].functions, rva), AllThunks(left[1..], rva + |NamesOf(left[0])|);
    assert before + (first + rest) == before + first + rest;
  }

  lemma DescriptorStep(before: seq<Byte>, d: seq<Byte>, left: seq<Import>, lookup: nat, addresses: nat, rva: nat)
    requires left != [] && d == Descriptor(lookup, rva + |HintRecords(left[0].functions)|, addresses)
    ensures before + Descriptors(left, lookup, addresses, rva)
            == before + d + Descriptors(left[1..], lookup + ThunkBytes(left[0]), addresses + ThunkBytes(left[0]),
                                        rva + |NamesOf(left[0])|)
  {
  }

  lemma Begins(va: nat, imports: seq<Import>, s: Draft)
    requires s == Draft([], LookupOffset(imports), [], TotalThunks(imports) * THUNK, [])
    ensures Between(va, imports, imports, s)
  {
    hide AlignUp, Descriptors, AllThunks, Names, TotalThunks;
    NamesAreEven(imports);
  }

  lemma Ends(va: nat, imports: seq<Import>, s: Draft)
    requires Between(va, imports, [], s)
    ensures s.room >= DESCRIPTOR
    ensures Flat(AddDescriptor(s, Zeros(DESCRIPTOR))) == Image(imports, va)
  {
    NothingLeft(va, imports, s);
    hide Between, Descriptors, AllThunks, Names, Padding, LookupOffset, AddressOffset, NameOffset, Zeros;
    var last := AddDescriptor(s, Zeros(DESCRIPTOR));
    NoRoom(last);
  }

  lemma NoRoom(s: Draft)
    requires s.slots == 0
    ensures Flat(s) == Joined(s.descriptors, Zeros(s.room), s.thunks, s.thunks, s.names)
  {
    assert Zeros(0) == [];
  }

  /** With no DLL left, all but the zero descriptor is there. */
  lemma NothingLeft(va: nat, imports: seq<Import>, s: Draft)
    requires Between(va, imports, [], s)
    ensures s.slots == 0 && s.room == Padding(imports) + DESCRIPTOR
    ensures s.descriptors + Zeros(DESCRIPTOR)
            == Descriptors(imports, va + LookupOffset(imports), va + AddressOffset(imports), va + NameOffset(imports))
    ensures s.thunks == AllThunks(imports, va + NameOffset(imports)) && s.names == Names(imports)
  {
    hide AlignUp, Padding, LookupOffset, AddressOffset, NameOffset;
    assert AllThunks([], va + End(s)) == [] && Names([]) == [];
  }

  // ----- filling the section -----

  /** The buffer and the offsets agree with this section. */
  ghost predicate Synced(buffer: seq<Byte>, ilt: nat, iat: nat, name: nat, s: Draft) {
    ilt == LookupAt(s) && iat == AddressAt(s) && name == End(s) && Holds(buffer, name, s) && name % 2 == 0
  }

  function FunctionWrites(buffer: seq<Byte>, ilt: nat, iat: nat, name: nat, thunk: seq<Byte>, f: seq<Byte>): seq<Byte> {
    Written(Written(Written(Written(buffer, ilt, thunk), iat, thunk), name, [0, 0]), name + 2, FunctionName(f) + [0])
  }

  lemma FunctionWritten(buffer: seq<Byte>, ilt: nat, iat: nat, name: nat, s: Draft, thunk: seq<Byte>, f: seq<Byte>)
    requires Synced(buffer, ilt, iat, name, s) && |thunk| == THUNK <= s.slots
    ensures Synced(FunctionWrites(buffer, ilt, iat, name, thunk, f), ilt + THUNK, iat + THUNK,
                   AlignUp(name + 2 + |FunctionName(f)| + 1, 2), AddName(AddThunk(s, thunk), HintRecord(f)))
  {
    hide Holds, Written, AlignUp, FunctionName, Even;
    HoldsThunk(buffer, name, s, thunk);
    var thunked := Written(Written(buffer, ilt, thunk), iat, thunk);
    HoldsSize(thunked, name, AddThunk(s, thunk));
    var record := [0, 0] + FunctionName(f) + [0];
    assert record == [0, 0] + (FunctionName(f) + [0]);
    WritesJoin(thunked, name, [0, 0], FunctionName(f) + [0]);
    HoldsName(thunked, name, AddThunk(s, thunk), record);
  }

  lemma HoldsSize(buffer: seq<Byte>, size: nat, s: Draft)
    requires Holds(buffer, size, s)
    ensures |buffer| <= size == End(s)
  {
  }

  function DllWrites(buffer: seq<Byte>, ilt: nat, iat: nat, name: nat, pos: nat, descriptor: seq<Byte>, d: seq<Byte>): seq<Byte> {
    Written(Written(Written(Written(buffer, ilt, Thunk(0)), iat, Thunk(0)), name, DllName(d) + [0]), pos, descriptor)
  }

  lemma DllWritten(buffer: seq<Byte>, ilt: nat, iat: nat, name: nat, s: Draft, descriptor: seq<Byte>, d: seq<Byte>)
    requires Synced(buffer, ilt, iat, name, s) && THUNK <= s.slots && |descriptor| <= s.room
    ensures Synced(DllWrites(buffer, ilt, iat, name, |s.descriptors|, descriptor, d), ilt + THUNK, iat + THUNK,
                   AlignUp(name + |DllName(d)| + 1, 2), Closed(s, descriptor, d))
  {
    hide Holds, Written, AlignUp, DllName, Even, Thunk;
    HoldsThunk(buffer, name, s, Thunk(0));
    var thunked := Written(Written(buffer, ilt, Thunk(0)), iat, Thunk(0));
    HoldsName(thunked, name, AddThunk(s, Thunk(0)), DllName(d) + [0]);
    var closed := AddName(AddThunk(s, Thunk(0)), DllRecord(d));
    HoldsDescriptor(Written(thunked, name, DllName(d) + [0]), End(closed), closed, descriptor);
  }

  lemma NameOffsetIsEven(imports: seq<Import>)
    ensures NameOffset(imports) % 2 == 0
  {
  }

  lemma EmptyDraft(room: nat, slots: nat)
    ensures Flat(Draft([], room, [], slots, [])) == Zeros(room + slots + slots)
  {
  }

  lemma SyncedAtStart(imports: seq<Import>)
    ensures Synced(Zeros(NameOffset(imports)), LookupOffset(imports), AddressOffset(imports), NameOffset(imports),
                   Draft([], LookupOffset(imports), [], TotalThunks(imports) * THUNK, []))
  {
    NamesAreEven(imports);
    NameOffsetIsEven(imports);
    EmptyDraft(LookupOffset(imports), TotalThunks(imports) * THUNK);
    hide AlignUp, LookupOffset, NameOffset, TotalThunks, Flat;
  }

  function DescriptorAt(index: nat): nat {
    index * DESCRIPTOR
  }

  lemma FunctionStep(va: nat, functions: seq<seq<Byte>>, k: nat, buffer: seq<Byte>, ilt: nat, iat: nat, name: nat,
                     s: Draft, start: Draft) returns (next: Draft)
    requires k < |functions| && Within(va, functions, functions[k..], s, start) && Synced(buffer, ilt, iat, name, s)
    requires s.descriptors == start.descriptors
    ensures Within(va, functions, functions[k + 1..], next, start) && next.descriptors == start.descriptors
    ensures Synced(FunctionWrites(buffer, ilt, iat, name, Thunk(va + name), functions[k]), ilt + THUNK, iat + THUNK,
                   AlignUp(name + 2 + |FunctionName(functions[k])| + 1, 2), next)
  {
    hide Within, Holds, FunctionWrites, Thunk, AlignUp, FunctionName, HintRecord;
    NextFunction(va, functions, functions[k..], s, start);
    FunctionWritten(buffer, ilt, iat, name, s, Thunk(va + name), functions[k]);
    next := AddName(AddThunk(s, Thunk(va + name)), HintRecord(functions[k]));
    assert functions[k..][1..] == functions[k + 1..];
  }

  lemma DllStep(va: nat, imports: seq<Import>, i: nat, buffer: seq<Byte>, ilt: nat, iat: nat, name: nat, s: Draft,
                start: Draft) returns (next: Draft)
    requires i < |imports| && Between(va, imports, imports[i..], start)
    requires Within(va, imports[i].functions, imports[i].functions[|imports[i].functions|..], s, start)
    requires Synced(buffer, ilt, iat, name, s) && s.descriptors == start.descriptors && |s.descriptors| == DescriptorAt(i)
    ensures Between(va, imports, imports[i + 1..], next) && |next.descriptors| == DescriptorAt(i + 1)
    ensures var descriptor := Descriptor(va + LookupAt(start), va + name, va + AddressAt(start));
            Synced(DllWrites(buffer, ilt, iat, name, |start.descriptors|, descriptor, imports[i].dll), ilt + THUNK,
                   iat + THUNK, AlignUp(name + |DllName(imports[i].dll)| + 1, 2), next)
  {
    hide Between, Within, Holds, DllWrites, Thunk, AlignUp, DllName, Descriptor, LookupAt, AddressAt;
    assert imports[i].functions[|imports[i].functions|..] == [];
    NextDll(va, imports, imports[i..], s, start);
    var descriptor := Descriptor(va + LookupAt(start), va + name, va + AddressAt(start));
    DllWritten(buffer, ilt, iat, name, s, descriptor, imports[i].dll);
    next := Closed(s, descriptor, imports[i].dll);
    assert imports[i..][1..] == imports[i + 1..];
  }

  lemma Pointers(buffer: seq<Byte>, ilt: nat, iat: nat, name: nat, s: Draft)
    requires Synced(buffer, ilt, iat, name, s)
    ensures ilt == LookupAt(s) && iat == AddressAt(s)
  {
  }

  lemma Starts(va: nat, imports: seq<Import>, total: nat, lookup: nat, addresses: nat, names: nat, s: Draft)
    requires total == TotalThunks(imports) && lookup == AlignUp((|imports| + 1) * DESCRIPTOR, 8)
    requires addresses == lookup + total * THUNK && names == AlignUp(addresses + total * THUNK, 2)
    requires s == Draft([], lookup, [], total * THUNK, [])
    ensures Synced(Zeros(names), lookup, addresses, names, s) && Between(va, imports, imports, s)
    ensures |s.descriptors| == DescriptorAt(0)
  {
    hide AlignUp, Synced, Between, TotalThunks;
    SyncedAtStart(imports);
    Begins(va, imports, s);
  }

  /** The last descriptor is zero, and the buffer is cut or grown to the end of the names. */
  lemma SyncedAtEnd(va: nat, imports: seq<Import>, buffer: seq<Byte>, ilt: nat, iat: nat, name: nat, s: Draft)
    requires Between(va, imports, [], s) && Synced(buffer, ilt, iat, name, s)
    ensures var closed := Written(buffer, |s.descriptors|, Zeros(DESCRIPTOR));
            |closed| <= name && Grown(closed, name) == Image(imports, va)
  {
    hide Between, Written, Grown, Flat, Image;
    Ends(va, imports, s);
    HoldsDescriptor(buffer, name, s, Zeros(DESCRIPTOR));
  }

  /** The thunks and the records of the functions of a DLL. */
  method WriteFunctions(idataVA: nat, functions: seq<seq<Byte>>, before: seq<Byte>, ilt: nat, iat: nat, name: nat,
                        ghost start: Draft)
    returns (buffer: seq<Byte>, iltPtr: nat, iatPtr: nat, currentNameOffset: nat, ghost s: Draft)
    requires Synced(before, ilt, iat, name, start) && Within(idataVA, functions, functions, start, start)
    ensures Synced(buffer, iltPtr, iatPtr, currentNameOffset, s)
    ensures Within(idataVA, functions, functions[|functions|..], s, start) && s.descriptors == start.descriptors
  {
    hide Synced, Within, Written, AlignUp, Thunk, FunctionName;
    buffer, iltPtr, iatPtr, currentNameOffset, s := before, ilt, iat, name, start;
    assert functions[0..] == functions;
    for k := 0 to |functions|
      invariant s.descriptors == start.descriptors
      invariant Synced(buffer, iltPtr, iatPtr, currentNameOffset, s)
      invariant Within(idataVA, functions, functions[k..], s, start)
    {
      ghost var next := FunctionStep(idataVA, functions, k, buffer, iltPtr, iatPtr, currentNameOffset, s, start);
      var f := functions[k];
      var thunk := Thunk(idataVA + currentNameOffset);
      buffer := Overwrite(buffer, iltPtr, thunk);
      iltPtr := iltPtr + THUNK;
      buffer := Overwrite(buffer, iatPtr, thunk);
      iatPtr := iatPtr + THUNK;
      buffer := Overwrite(buffer, currentNameOffset, [0, 0]);
      currentNameOffset := currentNameOffset + 2;
      buffer := Overwrite(buffer, currentNameOffset, FunctionName(f) + [0]);
      currentNameOffset := currentNameOffset + |FunctionName(f)| + 1;
      currentNameOffset := AlignUp(currentNameOffset, 2);
      s := next;
    }
  }

  /** The descriptors, the thunks of both tables and the names, written as the offsets go along. */
  method BuildIdataBuffer(idataVA: nat, imports: seq<Import>) returns (buffer: seq<Byte>)
    ensures buffer == Image(imports, idataVA)
    ensures NulFreeNames(imports) && idataVA + |buffer| <= Range(4) ==>
              var loaded := Load(buffer, idataVA, 0);
              loaded.Some? && |loaded.value| == |imports|
              && forall i :: 0 <= i < |imports| ==> LoadedAs(loaded.value[i], imports[i])
  {
    hide Load, Expected, NulFreeNames, Range, LoadedAs;
    hide Synced, Between, Within, Written, Grown, Image, AlignUp, Thunk, Descriptor, DllName, TotalThunks;
    hide LookupAt, AddressAt, DescriptorAt, Zeros;
    var totalThunks := CountThunks(imports);
    var intOffset := AlignUp((|imports| + 1) * DESCRIPTOR, 8);
    var iatOffset := intOffset + totalThunks * THUNK;
    var nameOffset := AlignUp(iatOffset + totalThunks * THUNK, 2);
    buffer := Zeros(nameOffset);
    var iltPtr: nat, iatPtr: nat, currentNameOffset: nat, descIndex: nat := intOffset, iatOffset, nameOffset, 0;
    ghost var s := Draft([], intOffset, [], totalThunks * THUNK, []);
    Starts(idataVA, imports, totalThunks, intOffset, iatOffset, nameOffset, s);
    assert imports[0..] == imports;
    for i := 0 to |imports|
      invariant descIndex == i && DescriptorAt(i) == |s.descriptors|
      invariant Synced(buffer, iltPtr, iatPtr, currentNameOffset, s)
      invariant Between(idataVA, imports, imports[i..], s)
    {
      var descPos := DescriptorAt(descIndex);
      var originalFirstThunk, firstThunk := idataVA + iltPtr, idataVA + iatPtr;
      ghost var start := s;
      Pointers(buffer, iltPtr, iatPtr, currentNameOffset, s);
      WithinStarts(idataVA, imports, imports[i..], s);
      buffer, iltPtr, iatPtr, currentNameOffset, s :=
        WriteFunctions(idataVA, imports[i].functions, buffer, iltPtr, iatPtr, currentNameOffset, s);
      ghost var next := DllStep(idataVA, imports, i, buffer, iltPtr, iatPtr, currentNameOffset, s, start);
      var descriptor := Descriptor(originalFirstThunk, idataVA + currentNameOffset, firstThunk);
      buffer := Overwrite(buffer, iltPtr, Thunk(0));
      iltPtr := iltPtr + THUNK;
      buffer := Overwrite(buffer, iatPtr, Thunk(0));
      iatPtr := iatPtr + THUNK;
      buffer := Overwrite(buffer, currentNameOffset, DllName(imports[i].dll) + [0]);
      currentNameOffset := AlignUp(currentNameOffset + |DllName(imports[i].dll)| + 1, 2);
      buffer := Overwrite(buffer, descPos, descriptor);
      descIndex := descIndex + 1;
      s := next;
    }
    assert imports[|imports|..] == [];
    SyncedAtEnd(idataVA, imports, buffer, iltPtr, iatPtr, currentNameOffset, s);
    buffer := Overwrite(buffer, DescriptorAt(descIndex), Zeros(DESCRIPTOR));
    buffer := EnsureSize(buffer, currentNameOffset);
    if NulFreeNames(imports) && idataVA + |buffer| <= Range(4) {
      ImageLoads(imports, idataVA);
    }
  }

  method CountThunks(imports: seq<Import>) returns (total: nat)
    ensures total == TotalThunks(imports)
  {
    total := 0;
    for i := 0 to |imports|
      invariant total + TotalThunks(imports[i..]) == TotalThunks(imports)
    {
      total := total + |imports[i].functions| + 1;
      assert imports[i..][1..] == imports[i + 1..];
    }
  }
}
