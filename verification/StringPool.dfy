/** Pooled data: what array initialisers and strings leave in the data section, and the instructions that
    copy it. Without pooling, every string gets an entry of its own. */
module StringPool {
  import Arithmetic
  import opened Bytes

  /** Where a string starts in the data, and its length. */
  datatype StringEntry = StringEntry(length: nat, offset: nat)
  datatype StringIndex = StringIndex(indexInTable: nat, offset: nat)

  datatype Instruction = ZeroMemory(target: nat, size: nat) | CopyFromData(target: nat, index: nat, offset: nat, size: nat)

  type Memory = map<nat, Byte>

  function Fill(memory: Memory, address: nat, bytes: seq<Byte>): (m: Memory)
    ensures forall a :: a in m <==> a in memory || address <= a < address + |bytes|
    ensures forall a :: a in m ==> m[a] == if address <= a < address + |bytes| then bytes[a - address] else memory[a]
    decreases |bytes|
  {
    if bytes == [] then memory else Fill(memory[address := bytes[0]], address + 1, bytes[1..])
  }

  /** The elements of an array in memory. */
  function Encoded(values: seq<nat>, elementSize: nat): (bytes: seq<Byte>)
    ensures |bytes| == |values| * elementSize
  {
    if values == [] then [] else LittleEndian(values[0], elementSize) + Encoded(values[1..], elementSize)
  }

  /** The elements lie one behind the other, in order, each with its lowest byte first. */
  lemma {:induction false} ElementsInOrder(values: seq<nat>, elementSize: nat, i: nat, k: nat)
    requires i < |values| && k < elementSize
    ensures i * elementSize + k < |Encoded(values, elementSize)|
    ensures Encoded(values, elementSize)[i * elementSize + k] == values[i] / Range(k) % 256
    decreases i
  {
    hide LittleEndian, Range;
    var rest := Encoded(values[1..], elementSize);
    if i == 0 {
      ByteAt(values[0], elementSize, k);
    } else {
      ElementsInOrder(values[1..], elementSize, i - 1, k);
      assert i * elementSize + k == elementSize + ((i - 1) * elementSize + k);
    }
  }

  predicate AllZero(values: seq<nat>) {
    forall k :: 0 <= k < |values| ==> values[k] == 0
  }

  lemma {:induction false} ZerosEncoded(values: seq<nat>, elementSize: nat)
    requires AllZero(values)
    ensures Encoded(values, elementSize) == Zeros(|values| * elementSize)
    decreases |values|
  {
    if values != [] {
      ZerosEncoded(values[1..], elementSize);
      ZeroInBytes(elementSize);
      assert |values| * elementSize == elementSize + |values[1..]| * elementSize;
      assert Zeros(elementSize) + Zeros(|values[1..]| * elementSize) == Zeros(|values| * elementSize);
    }
  }

  // ----- one byte of an element -----

  /** A shift by whole bytes, and a mask; from the fifth byte on there is nothing left of 32 bits. */
  function ElementByte(value: nat, index: nat): Byte {
    if index < 4 then value / Range(index) % 256 else 0
  }

  lemma {:induction false} DividesOn(value: nat, index: nat)
    ensures value / Range(index + 1) == value / 256 / Range(index)
    decreases index
  {
    var p := Range(index);
    DivideTwice(value, 256, p);
  }

  lemma DivideTwice(x: nat, m: nat, p: nat)
    requires m > 0 && p > 0
    ensures m * p > 0 && x / (m * p) == x / m / p
  {
    var y := x / m;
    Nested(x, m, p, y, x % m, y / p, y % p);
  }

  lemma Nested(x: nat, m: nat, p: nat, y: nat, r: nat, q: nat, s: nat)
    requires x == m * y + r && y == p * q + s && r < m && s < p
    ensures m * p > 0 && x / (m * p) == q
  {
    Regroup(m, p, q, s);
    RemainderFits(m, p, s, r);
    Quotient(x, m * p, q, m * s + r);
  }

  lemma Regroup(m: nat, p: nat, q: nat, s: nat)
    ensures m * (p * q + s) == m * p * q + m * s
  {
    assert m * (p * q) == m * p * q;
  }

  lemma RemainderFits(m: nat, p: nat, s: nat, r: nat)
    requires r < m && s < p
    ensures 0 <= m * s + r < m * p
  {
    Arithmetic.Distribute(m, p, s);
    Arithmetic.MultipleAtLeast(m, p - s);
  }

  lemma Quotient(x: nat, d: nat, q: nat, r: nat)
    requires d > 0 && x == d * q + r && r < d
    ensures x / d == q
  {
    Arithmetic.ModUnique(x, d, q, r);
  }

  lemma {:induction false} ByteAt(value: nat, width: nat, k: nat)
    requires k < width
    ensures LittleEndian(value, width)[k] == value / Range(k) % 256
    decreases width
  {
    if k > 0 {
      ByteAt(value / 256, width - 1, k - 1);
      DividesOn(value, k - 1);
    }
  }

  lemma {:induction false} NothingLeft(value: nat, k: nat)
    requires value < Range(4) && k >= 4
    ensures value / Range(k) == 0
    decreases k
  {
    if k > 4 {
      NothingLeft(value, k - 1);
      DividesOn(value, k - 1);
      DivideTwice(value, Range(k - 1), 256);
    }
  }

  /** The bytes that are shifted out of an element are its little-endian encoding. */
  lemma ElementBytes(value: nat, width: nat, bytes: seq<Byte>)
    requires value < Range(4) && |bytes| == width && forall k :: 0 <= k < width ==> bytes[k] == ElementByte(value, k)
    ensures bytes == LittleEndian(value, width)
  {
    forall k | 0 <= k < width
      ensures bytes[k] == LittleEndian(value, width)[k]
    {
      ByteAt(value, width, k);
      if k >= 4 {
        NothingLeft(value, k);
      }
    }
  }

  // ----- the data section -----

  ghost predicate Stored(arena: seq<Byte>, e: StringEntry) {
    e.offset + e.length < |arena| && arena[e.offset + e.length] == 0
  }

  function DataAt(arena: seq<Byte>, table: seq<StringEntry>, index: nat, offset: nat, size: nat): seq<Byte>
    requires index < |table| && table[index].offset + offset + size <= |arena|
  {
    arena[table[index].offset + offset..table[index].offset + offset + size]
  }

  ghost function StringsOf(arena: seq<Byte>, table: seq<StringEntry>): (s: seq<seq<Byte>>)
    requires forall k :: 0 <= k < |table| ==> Stored(arena, table[k])
    ensures |s| == |table|
    ensures forall k :: 0 <= k < |table| && Stored(arena, table[k]) ==> s[k] == DataAt(arena, table, k, 0, table[k].length)
  {
    seq(|table|, k requires 0 <= k < |table| && Stored(arena, table[k]) => DataAt(arena, table, k, 0, table[k].length))
  }

  class AssemblyContext {
    var arena: seq<Byte>
    var stringTable: seq<StringEntry>

    ghost predicate Valid()
      reads this
    {
      forall k :: 0 <= k < |stringTable| ==> Stored(arena, stringTable[k])
    }

    /** The strings that were added, in order. */
    ghost function Strings(): (s: seq<seq<Byte>>)
      requires Valid()
      reads this
      ensures |s| == |stringTable|
    {
      StringsOf(arena, stringTable)
    }

    constructor ()
      ensures Valid() && Strings() == [] && arena == []
    {
      arena, stringTable := [], [];
    }

    /** Nothing that was added before is changed by what is added later. */
    method AddString(value: seq<Byte>) returns (index: StringIndex)
      requires Valid()
      modifies this
      ensures Valid() && Strings() == old(Strings()) + [value]
      ensures index == StringIndex(|old(Strings())|, 0)
      ensures arena == old(arena) + value + [0]
    {
      var offset := |arena|;
      arena := arena + value;
      arena := arena + [0];
      index := StringIndex(|stringTable|, 0);
      stringTable := stringTable + [StringEntry(|value|, offset)];
      assert forall k :: 0 <= k < |old(stringTable)| ==> stringTable[k] == old(stringTable)[k];
      forall k | 0 <= k < |old(stringTable)|
        ensures Strings()[k] == old(Strings())[k]
      {
        var e := old(stringTable)[k];
        assert Stored(old(arena), e);
        assert arena[e.offset..e.offset + e.length] == old(arena)[e.offset..e.offset + e.length];
      }
      assert arena[offset..offset + |value|] == value;
    }

    method GetString(index: StringIndex) returns (value: seq<Byte>)
      requires Valid() && index.indexInTable < |stringTable| && index.offset == 0
      ensures value == Strings()[index.indexInTable]
    {
      var entry := stringTable[index.indexInTable];
      assert Stored(arena, entry);
      value := arena[entry.offset + index.offset..][..entry.length];
      assert value == arena[entry.offset..entry.offset + entry.length];
    }

    ghost predicate CanExecute(i: Instruction)
      reads this
    {
      i.CopyFromData? ==> i.index < |stringTable| && stringTable[i.index].offset + i.offset + i.size <= |arena|
    }

    ghost function Execute(i: Instruction, memory: Memory): Memory
      requires CanExecute(i)
      reads this
    {
      match i
      case ZeroMemory(target, size) => Fill(memory, target, Zeros(size))
      case CopyFromData(target, index, offset, size) => Fill(memory, target, DataAt(arena, stringTable, index, offset, size))
    }

    /** Zeros or pooled data: either way the elements are in memory afterwards, and the instruction goes on
        doing this while more strings are added. */
    method ParseArrayStore(target: nat, values: seq<nat>, elementSize: nat) returns (instructions: seq<Instruction>)
      requires Valid() && forall k :: 0 <= k < |values| ==> values[k] < Range(4)
      modifies this
      ensures Valid() && |instructions| <= 1
      ensures instructions == [] <==> |values| * elementSize == 0
      ensures old(Strings()) <= Strings()
      ensures instructions == [] ==> Encoded(values, elementSize) == []
      ensures instructions != [] ==> Means(instructions[0], Strings(), target, Encoded(values, elementSize))
    {
      instructions := [];
      var totalSize := |values| * elementSize;
      if totalSize == 0 {
        assert |Encoded(values, elementSize)| == 0;
        return;
      }
      if AllZero(values) {
        ZerosEncoded(values, elementSize);
        return [ZeroMemory(target, totalSize)];
      }
      var bytes := EncodeElements(values, elementSize);
      var index := AddString(bytes);
      instructions := [CopyFromData(target, index.indexInTable, index.offset, totalSize)];
      StringIs(index.indexInTable);
    }

    lemma StringIs(index: nat)
      requires Valid() && index < |stringTable|
      ensures stringTable[index].offset + stringTable[index].length <= |arena|
      ensures |Strings()[index]| == stringTable[index].length
      ensures Strings()[index] == DataAt(arena, stringTable, index, 0, stringTable[index].length)
    {
      assert Stored(arena, stringTable[index]);
    }

    /** While strings are only added, an instruction keeps its meaning. */
    lemma MeansTheSameLater(i: Instruction, before: seq<seq<Byte>>, target: nat, bytes: seq<Byte>, memory: Memory)
      requires Valid() && before <= Strings() && Means(i, before, target, bytes)
      ensures CanExecute(i) && Execute(i, memory) == Fill(memory, target, bytes)
    {
      if i.CopyFromData? {
        StringIs(i.index);
      }
    }
  }

  /** This instruction puts these bytes there, as long as these strings are pooled. */
  ghost predicate Means(i: Instruction, strings: seq<seq<Byte>>, target: nat, bytes: seq<Byte>) {
    match i
    case ZeroMemory(t, size) => t == target && bytes == Zeros(size)
    case CopyFromData(t, index, offset, size) =>
      t == target && index < |strings| && strings[index] == bytes && offset == 0 && size == |bytes|
  }

  method EncodeElements(values: seq<nat>, elementSize: nat) returns (bytes: seq<Byte>)
    requires forall k :: 0 <= k < |values| ==> values[k] < Range(4)
    ensures bytes == Encoded(values, elementSize)
  {
    hide Range;
    bytes := [];
    assert values[0..] == values;
    for i := 0 to |values|
      invariant bytes + Encoded(values[i..], elementSize) == Encoded(values, elementSize)
    {
      var element: seq<Byte> := [];
      for byteIndex := 0 to elementSize
        invariant |element| == byteIndex
        invariant forall k :: 0 <= k < byteIndex ==> element[k] == ElementByte(values[i], k)
      {
        element := element + [ElementByte(values[i], byteIndex)];
      }
      ElementBytes(values[i], elementSize, element);
      assert values[i..][1..] == values[i + 1..];
      assert bytes + (element + Encoded(values[i + 1..], elementSize)) == bytes + element + Encoded(values[i + 1..], elementSize);
      bytes := bytes + element;
    }
    assert values[|values|..] == [];
  }

  /** Elements are kept in 32 bits on their way to the pool. In a wider element a constant survives exactly
      when it is not negative and fits 32 bits. */
  lemma WideElementsAreCut(value: int)
    requires -0x8000_0000_0000_0000 <= value < 0x1_0000_0000_0000_0000
    ensures Encoded([value % 0x1_0000_0000], 8) == LittleEndian(value % 0x1_0000_0000_0000_0000, 8)
            <==> 0 <= value < 0x1_0000_0000
  {
    var kept, meant := value % 0x1_0000_0000, value % 0x1_0000_0000_0000_0000;
    Cut(value);
    hide Range, LittleEndian, Number, Encoded;
    LongRange();
    NumberReadsBack(kept, 8);
    NumberReadsBack(meant, 8);
    OneElement(kept);
  }

  lemma Cut(value: int)
    requires -0x8000_0000_0000_0000 <= value < 0x1_0000_0000_0000_0000
    ensures value % 0x1_0000_0000 == value % 0x1_0000_0000_0000_0000 <==> 0 <= value < 0x1_0000_0000
  {
  }

  lemma LongRange()
    ensures Range(8) == 0x1_0000_0000_0000_0000
  {
    assert Range(8) == 256 * Range(7) && Range(7) == 256 * Range(6) && Range(6) == 256 * Range(5) && Range(5) == 256 * Range(4);
    assert Range(4) == 256 * Range(3) && Range(3) == 256 * Range(2) && Range(2) == 256 * Range(1) && Range(1) == 256 * Range(0);
  }

  lemma OneElement(value: nat)
    ensures Encoded([value], 8) == LittleEndian(value, 8)
  {
    hide LittleEndian;
    assert [value][1..] == [];
  }
}
