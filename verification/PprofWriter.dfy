/** `write_pprof`: the whole message, and the proof that a reader recovers the
    profile from it. */
module PprofWriter {
  import opened Bits
  import opened Wire
  import opened Pprof

  method FunctionMessage(id: nat, name: nat) returns (buf: Text)
    ensures buf == Encode(FunctionFields(id, name))
  {
    var fs := FunctionFields(id, name);
    hide Encode, EncodeField;
    Empty();
    buf := WriteUint64([], 1, id);
    EncodeMore([], fs[0]);
    buf := WriteUint64(buf, 2, name);
    EncodeMore(fs[..1], fs[1]);
    buf := WriteUint64(buf, 3, name);
    EncodeMore(fs[..2], fs[2]);
    buf := WriteUint64(buf, 4, 0);
    EncodeMore(fs[..3], fs[3]);
    buf := WriteUint64(buf, 5, 0);
    EncodeMore(fs[..4], fs[4]);
    assert fs[..1] == [] + [fs[0]] && fs[..2] == fs[..1] + [fs[1]] && fs[..3] == fs[..2] + [fs[2]];
    assert fs[..4] == fs[..3] + [fs[3]] && fs == fs[..4] + [fs[4]];
  }

  method PairMessage(a: nat, b: nat) returns (buf: Text)
    ensures buf == Encode([Number(1, a), Number(2, b)])
  {
    hide Encode, EncodeField;
    Empty();
    buf := WriteUint64([], 1, a);
    EncodeMore([], Number(1, a));
    buf := WriteUint64(buf, 2, b);
    EncodeMore([Number(1, a)], Number(2, b));
    assert [] + [Number(1, a)] == [Number(1, a)];
    assert [Number(1, a)] + [Number(2, b)] == [Number(1, a), Number(2, b)];
  }

  method LocationMessage(id: nat, address: nat) returns (buf: Text)
    ensures buf == Encode(LocationFields(id, address))
  {
    var fs := LocationFields(id, address);
    hide Encode, EncodeField;
    Empty();
    var line := PairMessage(id, 0);
    buf := WriteUint64([], 1, id);
    EncodeMore([], fs[0]);
    buf := WriteUint64(buf, 2, 0);
    EncodeMore(fs[..1], fs[1]);
    buf := WriteUint64(buf, 3, address);
    EncodeMore(fs[..2], fs[2]);
    buf := WriteBytes(buf, 4, line);
    EncodeMore(fs[..3], fs[3]);
    assert fs[..1] == [] + [fs[0]] && fs[..2] == fs[..1] + [fs[1]] && fs[..3] == fs[..2] + [fs[2]];
    assert fs == fs[..3] + [fs[3]];
  }

  method SampleMessage(locations: seq<nat>, values: seq<nat>) returns (buf: Text)
    ensures buf == Encode(SampleFields(locations, values))
  {
    hide Encode, PackedFields;
    buf := WritePacked([], 1, locations);
    buf := WritePacked(buf, 2, values);
    EncodeConcat(PackedFields(1, locations), PackedFields(2, values));
  }

  lemma Empty()
    ensures Encode([]) == []
  {}

  // ----- one location and one function for each address

  /** The name of the i-th address is the string after the `base` first ones and
      the names before it; its index is cut to 32 bits. */
  function NameIndex(base: nat, i: nat): nat { (base + i) % U32 }

  function HexNames(addrs: seq<Address>): (names: seq<Text>)
    ensures |names| == |addrs|
  {
    seq(|addrs|, i requires 0 <= i < |addrs| => HexAddr(addrs[i]))
  }

  /** Addresses in the order of their first appearance. */
  ghost predicate Indexed(addrs: seq<Address>, base: nat, addrToLoc: map<Address, nat>,
                          functions: seq<Text>, locations: seq<Text>, bias: Option<nat>)
  {
    && |functions| == |locations| == |addrs| == |addrToLoc|
    && (forall a :: a in addrToLoc ==> 1 <= addrToLoc[a] <= |addrs| && addrs[addrToLoc[a] - 1] == a)
    && (forall i :: 0 <= i < |addrs| ==> addrs[i] in addrToLoc && addrToLoc[addrs[i]] == i + 1)
    && (forall i :: 0 <= i < |addrs| ==> Entry(i + 1, addrs[i], NameIndex(base, i), functions[i], locations[i], bias))
  }

  ghost predicate Entry(id: nat, addr: Address, name: nat, func: Text, loc: Text, bias: Option<nat>) {
    && func == Encode(FunctionFields(id, name))
    && loc == Encode(LocationFields(id, Corrected(addr, bias)))
  }

  lemma IndexedMore(addrs: seq<Address>, base: nat, addrToLoc: map<Address, nat>, functions: seq<Text>, locations: seq<Text>,
                    bias: Option<nat>, addr: Address, func: Text, loc: Text)
    requires Indexed(addrs, base, addrToLoc, functions, locations, bias)
    requires addr !in addrToLoc && Entry(|addrs| + 1, addr, NameIndex(base, |addrs|), func, loc, bias)
    ensures Indexed(addrs + [addr], base, addrToLoc[addr := |addrs| + 1], functions + [func], locations + [loc], bias)
  {
    hide Entry;
  }

  /** The string cannot be taken for the name of a frame. */
  predicate NotHex(s: Text) { s == [] || s[0] != 48 }

  /** The name of an address not seen before is a new string. */
  lemma NameIsNew(first: seq<Text>, addrs: seq<Address>, addr: Address)
    requires addr !in addrs && forall s :: s in first ==> NotHex(s)
    ensures HexAddr(addr) !in first + HexNames(addrs)
    ensures first + HexNames(addrs) + [HexAddr(addr)] == first + HexNames(addrs + [addr])
  {
    forall i | 0 <= i < |addrs| ensures HexNames(addrs)[i] != HexAddr(addr) {
      if HexAddr(addrs[i]) == HexAddr(addr) { HexAddrInjective(addrs[i], addr); }
    }
    assert !NotHex(HexAddr(addr));
    hide HexAddr;
    assert HexNames(addrs + [addr]) == HexNames(addrs) + [HexAddr(addr)];
  }

  class FrameIndex {
    const table: StringTable
    const bias: Option<nat>
    var addrToLoc: map<Address, nat>
    var nextLocationId: nat
    var nextFunctionId: nat
    var functions: seq<Text>
    var locations: seq<Text>
    ghost var addrs: seq<Address>
    /** The strings before the first frame. */
    ghost const first: seq<Text>

    ghost predicate Valid()
      reads this, table
    {
      && table.Valid()
      && nextLocationId == nextFunctionId == |addrs| + 1
      && Indexed(addrs, |first|, addrToLoc, functions, locations, bias)
      && (forall s :: s in first ==> NotHex(s)) && table.strings == first + HexNames(addrs)
    }

    constructor (table: StringTable, bias: Option<nat>)
      requires table.Valid() && forall s :: s in table.strings ==> NotHex(s)
      ensures Valid() && this.table == table && this.bias == bias && addrToLoc == map[] && first == table.strings
    {
      this.table, this.bias := table, bias;
      addrToLoc, functions, locations, addrs := map[], [], [], [];
      nextLocationId, nextFunctionId := 1, 1;
      first := table.strings;
    }

    /** An address seen before changes nothing; a new one gets the next location,
        the next function and the next string. */
    method AddFrame(addr: Address)
      requires Valid()
      modifies this, table
      ensures Valid()
      ensures addr in old(addrToLoc) ==> unchanged(this) && unchanged(table)
      ensures addr !in old(addrToLoc) ==> var id := |old(addrs)| + 1;
        && addrs == old(addrs) + [addr] && addrToLoc == old(addrToLoc)[addr := id]
        && functions == old(functions) + [Encode(FunctionFields(id, NameIndex(|first|, id - 1)))]
        && locations == old(locations) + [Encode(LocationFields(id, Corrected(addr, bias)))]
        && table.strings == old(table.strings) + [HexAddr(addr)]
    {
      hide Encode, FunctionFields, LocationFields, HexAddr, Indexed, StringTable.Valid, NotHex, HexNames;
      if addr in addrToLoc { return; }
      Unseen(addr);
      NameIsNew(first, addrs, addr);
      var name, pos := table.Intern(HexAddr(addr));
      var functionId := nextFunctionId;
      nextFunctionId := nextFunctionId + 1;
      var func := FunctionMessage(functionId, name);
      var locationId := nextLocationId;
      nextLocationId := nextLocationId + 1;
      var loc := LocationMessage(locationId, Corrected(addr, bias));
      IndexedMore(addrs, |first|, addrToLoc, functions, locations, bias, addr, func, loc);
      functions := functions + [func];
      addrToLoc := addrToLoc[addr := locationId];
      locations := locations + [loc];
      addrs := addrs + [addr];
    }

    lemma Unseen(addr: Address)
      requires Valid() && addr !in addrToLoc
      ensures addr !in addrs
    {}
  }

  function FramesOf(samples: seq<BtSample>): set<Address> {
    set i, j | 0 <= i < |samples| && 0 <= j < |samples[i].stack| :: samples[i].stack[j]
  }

  lemma FramesMore(samples: seq<BtSample>, i: nat)
    requires i < |samples|
    ensures FramesOf(samples[..i + 1]) == FramesOf(samples[..i]) + (set a | a in samples[i].stack)
  {
    var before, after := samples[..i], samples[..i + 1];
    forall a ensures a in FramesOf(after) <==> a in FramesOf(before) + (set x | x in samples[i].stack) {
      if a in FramesOf(before) {
        var k, j :| 0 <= k < |before| && 0 <= j < |before[k].stack| && before[k].stack[j] == a;
        assert after[k].stack[j] == a;
      }
      if a in samples[i].stack {
        var j :| 0 <= j < |samples[i].stack| && samples[i].stack[j] == a;
        assert after[i].stack[j] == a;
      }
      if a in FramesOf(after) {
        var k, j :| 0 <= k < |after| && 0 <= j < |after[k].stack| && after[k].stack[j] == a;
        if k < i { assert before[k].stack[j] == a; }
      }
    }
  }

  method IndexFrames(samples: seq<BtSample>, index: FrameIndex)
    requires index.Valid() && index.addrToLoc == map[]
    modifies index, index.table
    ensures index.Valid() && index.addrToLoc.Keys == FramesOf(samples)
  {
    hide FrameIndex.Valid;
    var i := 0;
    assert FramesOf(samples[..0]) == {};
    while i < |samples|
      invariant 0 <= i <= |samples| && index.Valid() && index.addrToLoc.Keys == FramesOf(samples[..i])
    {
      var stack := samples[i].stack;
      ghost var before := index.addrToLoc.Keys;
      var j := 0;
      while j < |stack|
        invariant 0 <= j <= |stack| && index.Valid()
        invariant index.addrToLoc.Keys == before + set a | a in stack[..j]
      {
        assert stack[..j + 1] == stack[..j] + [stack[j]];
        index.AddFrame(stack[j]);
        j := j + 1;
      }
      assert stack[..j] == stack;
      FramesMore(samples, i);
      i := i + 1;
    }
    assert samples[..i] == samples;
  }

  // ----- samples

  ghost predicate AllIndexed(stack: seq<Address>, addrToLoc: map<Address, nat>) {
    forall j :: 0 <= j < |stack| ==> stack[j] in addrToLoc
  }

  function LocationIds(stack: seq<Address>, addrToLoc: map<Address, nat>): seq<nat>
    requires AllIndexed(stack, addrToLoc)
  {
    seq(|stack|, j requires 0 <= j < |stack| => addrToLoc[stack[j]])
  }

  /** One object, and its bytes cut to 64 bits. */
  function Values(s: BtSample, weight: Weight): seq<nat> { [1, SampleWeight(s, weight) % WORD] }

  function SampleText(s: BtSample, weight: Weight, addrToLoc: map<Address, nat>): Text
    requires AllIndexed(s.stack, addrToLoc)
  {
    Encode(SampleFields(LocationIds(s.stack, addrToLoc), Values(s, weight)))
  }

  method SampleMessages(samples: seq<BtSample>, weight: Weight, addrToLoc: map<Address, nat>) returns (bufs: seq<Text>)
    requires forall i :: 0 <= i < |samples| ==> AllIndexed(samples[i].stack, addrToLoc)
    ensures |bufs| == |samples|
    ensures forall i :: 0 <= i < |samples| ==> bufs[i] == SampleText(samples[i], weight, addrToLoc)
  {
    hide Encode, SampleFields;
    bufs := [];
    var i := 0;
    while i < |samples|
      invariant 0 <= i <= |samples| == |samples| && |bufs| == i
      invariant forall k :: 0 <= k < i ==> bufs[k] == SampleText(samples[k], weight, addrToLoc)
    {
      var buf := SampleMessage(LocationIds(samples[i].stack, addrToLoc), Values(samples[i], weight));
      bufs := bufs + [buf];
      i := i + 1;
    }
  }

  // ----- the message as a whole

  lemma ProfileRecords(types: seq<Text>, samples: seq<Text>, locations: seq<Text>, functions: seq<Text>,
                       strings: seq<Text>, defaultType: nat)
    ensures var fs := ProfileFields(types, samples, locations, functions, strings, defaultType);
      && Records(fs, 1) == types && Records(fs, 2) == samples && Records(fs, 4) == locations
      && Records(fs, 5) == functions && Records(fs, 6) == strings && Scalar(fs, 14) == defaultType
  {
    var a, b, c, d, e := Wrap(1, types), Wrap(2, samples), Wrap(4, locations), Wrap(5, functions), Wrap(6, strings);
    ScalarLast(a + b + c + d + e, Number(14, defaultType), 14);
    hide Records, Wrap, Scalar;
    RecordsAt(types, samples, locations, functions, strings, defaultType, 1);
    RecordsAt(types, samples, locations, functions, strings, defaultType, 2);
    RecordsAt(types, samples, locations, functions, strings, defaultType, 4);
    RecordsAt(types, samples, locations, functions, strings, defaultType, 5);
    RecordsAt(types, samples, locations, functions, strings, defaultType, 6);
  }

  lemma RecordsAt(types: seq<Text>, samples: seq<Text>, locations: seq<Text>, functions: seq<Text>,
                  strings: seq<Text>, defaultType: nat, n: nat)
    ensures Records(ProfileFields(types, samples, locations, functions, strings, defaultType), n) ==
      (if n == 1 then types else if n == 2 then samples else if n == 4 then locations
       else if n == 5 then functions else if n == 6 then strings else [])
  {
    var last := [Number(14, defaultType)];
    NoRecordsIn(last, n);
    hide Records, Wrap;
    var a, b, c, d, e := Wrap(1, types), Wrap(2, samples), Wrap(4, locations), Wrap(5, functions), Wrap(6, strings);
    RecordsConcat(a + b + c + d + e, last, n);
    RecordsConcat(a + b + c + d, e, n);
    RecordsConcat(a + b + c, d, n);
    RecordsConcat(a + b, c, n);
    RecordsConcat(a, b, n);
    RecordsWrap(1, types, n);
    RecordsWrap(2, samples, n);
    RecordsWrap(4, locations, n);
    RecordsWrap(5, functions, n);
    RecordsWrap(6, strings, n);
  }

  /** A message made of readable parts reads as its parts. */
  lemma ProfileReads(p: Profile, types: seq<Text>, samples: seq<Text>, locations: seq<Text>, functions: seq<Text>)
    requires |types| == |p.types| && forall i :: 0 <= i < |types| ==> ReadType(types[i]) == Some(p.types[i])
    requires |samples| == |p.samples| && forall i :: 0 <= i < |samples| ==> ReadSample(samples[i]) == Some(p.samples[i])
    requires |locations| == |p.locations| && forall i :: 0 <= i < |locations| ==> ReadLocation(locations[i]) == Some(p.locations[i])
    requires |functions| == |p.functions| && forall i :: 0 <= i < |functions| ==> ReadFunction(functions[i]) == Some(p.functions[i])
    ensures ReadProfile(Encode(ProfileFields(types, samples, locations, functions, p.strings, p.defaultType))) == Some(p)
  {
    hide Encode, ProfileFields, Parse, Records, Scalar, ReadType, ReadSample, ReadLocation, ReadFunction, ReadEach;
    RoundTrip(ProfileFields(types, samples, locations, functions, p.strings, p.defaultType));
    ProfileRecords(types, samples, locations, functions, p.strings, p.defaultType);
    ReadsEach(types, ReadType, p.types);
    ReadsEach(samples, ReadSample, p.samples);
    ReadsEach(locations, ReadLocation, p.locations);
    ReadsEach(functions, ReadFunction, p.functions);
  }

  // ----- what the reader is promised

  const ALLOC_OBJECTS: Text := [97, 108, 108, 111, 99, 95, 111, 98, 106, 101, 99, 116, 115]
  const COUNT: Text := [99, 111, 117, 110, 116]
  const ALLOC_SPACE: Text := [97, 108, 108, 111, 99, 95, 115, 112, 97, 99, 101]
  const BYTES: Text := [98, 121, 116, 101, 115]

  lemma TypeNames()
    ensures ALLOC_OBJECTS == Ascii("alloc_objects") && COUNT == Ascii("count")
    ensures ALLOC_SPACE == Ascii("alloc_space") && BYTES == Ascii("bytes")
  {}

  predicate Names(p: Profile, idx: nat, s: Text) { Holds(p.strings, idx, s) }

  predicate TypesRecovered(p: Profile) {
    && |p.types| == 2
    && Names(p, p.types[0].kind, ALLOC_OBJECTS) && Names(p, p.types[0].unit, COUNT)
    && Names(p, p.types[1].kind, ALLOC_SPACE) && Names(p, p.types[1].unit, BYTES)
    && Names(p, p.defaultType, ALLOC_SPACE)
  }

  /** The address less the load bias, or null if it lies below that. */
  predicate AddressRecovered(address: nat, addr: nat, bias: Option<nat>) {
    match bias
    case None => address == addr
    case Some(b) => if b <= addr then address + b == addr else address == 0
  }

  lemma CorrectedIs(addr: nat, bias: Option<nat>)
    ensures AddressRecovered(Corrected(addr, bias), addr, bias)
  {}

  /** The location of a frame has the corrected address, and its function the raw one as name. */
  predicate FrameRecovered(p: Profile, id: nat, addr: nat, bias: Option<nat>) {
    && 1 <= id <= |p.locations|
    && var l := p.locations[id - 1];
    && l.id == id && AddressRecovered(l.address, addr, bias) && |l.lines| == 1
    && var f := l.lines[0].functionId;
    && 1 <= f <= |p.functions| && p.functions[f - 1].id == f && Names(p, p.functions[f - 1].name, HexAddr(addr))
  }

  ghost predicate SampleRecovered(p: Profile, m: SampleMsg, s: BtSample, weight: Weight, bias: Option<nat>) {
    && |m.values| == 2 && m.values[0] == 1 && AsInt64(m.values[1]) == AsInt64(SampleWeight(s, weight))
    && |m.locations| == |s.stack|
    && forall j :: 0 <= j < |s.stack| ==> FrameRecovered(p, m.locations[j], s.stack[j], bias)
  }

  /** One location and one function per distinct address, numbered from one. */
  ghost predicate Faithful(p: Profile, samples: seq<BtSample>, weight: Weight, bias: Option<nat>) {
    && |p.strings| > 0 && p.strings[0] == [] && TypesRecovered(p)
    && |p.locations| == |p.functions| == |FramesOf(samples)|
    && (forall i :: 0 <= i < |p.locations| ==> p.locations[i].id == i + 1 && p.functions[i].id == i + 1)
    && |p.samples| == |samples|
    && (forall i :: 0 <= i < |samples| ==> SampleRecovered(p, p.samples[i], samples[i], weight, bias))
  }

  /** Different addresses have different locations. */
  lemma OneAddressPerLocation(p: Profile, id: nat, a: nat, b: nat, bias: Option<nat>)
    requires a < WORD && b < WORD && FrameRecovered(p, id, a, bias) && FrameRecovered(p, id, b, bias)
    ensures a == b
  {
    HexAddrInjective(a, b);
  }

  /** Byte weights that fit a signed 64-bit number are recovered exactly, and no others. */
  lemma WeightRecovered(s: BtSample, weight: Weight)
    ensures AsInt64(SampleWeight(s, weight)) == SampleWeight(s, weight) <==> SampleWeight(s, weight) < WORD / 2
  {}

  // ----- the writer

  method Assemble(type0: Text, type1: Text, samples: seq<Text>, locations: seq<Text>, functions: seq<Text>,
                  strings: seq<Text>, defaultType: nat) returns (out: Text)
    ensures out == Encode(ProfileFields([type0, type1], samples, locations, functions, strings, defaultType))
  {
    hide Encode, EncodeField, Wrap;
    ghost var a, b, c, d, e := Wrap(1, [type0, type1]), Wrap(2, samples), Wrap(4, locations), Wrap(5, functions), Wrap(6, strings);
    TwoRecords(1, type0, type1);
    out := WriteBytes([], 1, type0);
    out := WriteBytes(out, 1, type1);
    assert out == Encode(a);
    out := WriteRecords(out, 2, samples);
    EncodeConcat(a, b);
    out := WriteRecords(out, 4, locations);
    EncodeConcat(a + b, c);
    out := WriteRecords(out, 5, functions);
    EncodeConcat(a + b + c, d);
    out := WriteRecords(out, 6, strings);
    EncodeConcat(a + b + c + d, e);
    out := WriteUint64(out, 14, defaultType);
    EncodeMore(a + b + c + d + e, Number(14, defaultType));
  }

  lemma TwoRecords(num: nat, x: Text, y: Text)
    ensures Encode(Wrap(num, [x, y])) == [] + EncodeField(Bytes(num, x)) + EncodeField(Bytes(num, y))
  {
    var w := Wrap(num, [x, y]);
    hide EncodeField;
    assert w == [Bytes(num, x)] + [Bytes(num, y)];
    EncodeMore([Bytes(num, x)], Bytes(num, y));
    EncodeMore([], Bytes(num, x));
    assert [] + [Bytes(num, x)] == [Bytes(num, x)];
  }

  /** What the reader makes of the tables. */
  ghost function Recovered(addrs: seq<Address>, base: nat, addrToLoc: map<Address, nat>, samples: seq<BtSample>, weight: Weight,
                           bias: Option<nat>, strings: seq<Text>, types: seq<TypeMsg>, defaultType: nat): Profile
    requires forall i :: 0 <= i < |samples| ==> AllIndexed(samples[i].stack, addrToLoc)
  {
    Profile(types,
      seq(|samples|, i requires 0 <= i < |samples| => SampleMsg(LocationIds(samples[i].stack, addrToLoc), Values(samples[i], weight))),
      seq(|addrs|, i requires 0 <= i < |addrs| => LocationMsg(i + 1, 0, Corrected(addrs[i], bias), [LineMsg(i + 1, 0)])),
      seq(|addrs|, i requires 0 <= i < |addrs| => FunctionMsg(i + 1, NameIndex(base, i), NameIndex(base, i), 0, 0)),
      strings, defaultType)
  }

  lemma FramesIndexed(samples: seq<BtSample>, addrToLoc: map<Address, nat>)
    requires addrToLoc.Keys == FramesOf(samples)
    ensures forall i :: 0 <= i < |samples| ==> AllIndexed(samples[i].stack, addrToLoc)
  {
    forall i, j | 0 <= i < |samples| && 0 <= j < |samples[i].stack| ensures samples[i].stack[j] in addrToLoc {
      assert samples[i].stack[j] in FramesOf(samples);
    }
  }

  lemma RecoveredReads(addrs: seq<Address>, base: nat, addrToLoc: map<Address, nat>, functions: seq<Text>, locations: seq<Text>,
                       samples: seq<BtSample>, sampleTexts: seq<Text>, weight: Weight, bias: Option<nat>, strings: seq<Text>,
                       types: seq<TypeMsg>, typeTexts: seq<Text>, defaultType: nat)
    requires Indexed(addrs, base, addrToLoc, functions, locations, bias)
    requires forall i :: 0 <= i < |samples| ==> AllIndexed(samples[i].stack, addrToLoc)
    requires |sampleTexts| == |samples| && forall i :: 0 <= i < |samples| ==> sampleTexts[i] == SampleText(samples[i], weight, addrToLoc)
    requires |typeTexts| == |types| && forall i :: 0 <= i < |types| ==> typeTexts[i] == Encode(ValueTypeFields(types[i].kind, types[i].unit))
    ensures ReadProfile(Encode(ProfileFields(typeTexts, sampleTexts, locations, functions, strings, defaultType))) ==
            Some(Recovered(addrs, base, addrToLoc, samples, weight, bias, strings, types, defaultType))
  {
    hide Encode, ProfileFields, ReadProfile, ReadType, ReadSample, ReadLocation, ReadFunction, ValueTypeFields, SampleFields;
    hide FunctionFields, LocationFields, HexAddr, Corrected, Values, LocationIds, AllIndexed;
    var p := Recovered(addrs, base, addrToLoc, samples, weight, bias, strings, types, defaultType);
    forall i | 0 <= i < |types| ensures ReadType(typeTexts[i]) == Some(p.types[i]) { TypeReads(types[i].kind, types[i].unit); }
    forall i | 0 <= i < |samples| ensures ReadSample(sampleTexts[i]) == Some(p.samples[i]) {
      SampleReads(LocationIds(samples[i].stack, addrToLoc), Values(samples[i], weight));
    }
    forall i | 0 <= i < |addrs| ensures ReadLocation(locations[i]) == Some(p.locations[i]) && ReadFunction(functions[i]) == Some(p.functions[i]) {
      assert Entry(i + 1, addrs[i], NameIndex(base, i), functions[i], locations[i], bias);
      LocationReads(i + 1, Corrected(addrs[i], bias));
      FunctionReads(i + 1, NameIndex(base, i));
    }
    ProfileReads(p, typeTexts, sampleTexts, locations, functions);
  }

  /** The strings are the first ones and the name of each address. */
  ghost predicate Named(strings: seq<Text>, addrs: seq<Address>, base: nat) {
    && 0 < base <= |strings| && base < U32 && strings[0] == []
    && strings[base..] == HexNames(addrs)
  }

  lemma RecoveredFaithful(addrs: seq<Address>, base: nat, addrToLoc: map<Address, nat>, functions: seq<Text>, locations: seq<Text>,
                          samples: seq<BtSample>, weight: Weight, bias: Option<nat>, strings: seq<Text>,
                          types: seq<TypeMsg>, defaultType: nat)
    requires Indexed(addrs, base, addrToLoc, functions, locations, bias) && addrToLoc.Keys == FramesOf(samples)
    requires forall i :: 0 <= i < |samples| ==> AllIndexed(samples[i].stack, addrToLoc)
    requires Named(strings, addrs, base)
    requires TypesRecovered(Recovered(addrs, base, addrToLoc, samples, weight, bias, strings, types, defaultType))
    ensures Faithful(Recovered(addrs, base, addrToLoc, samples, weight, bias, strings, types, defaultType), samples, weight, bias)
      <==> base + |FramesOf(samples)| <= U32
  {
    hide SampleRecovered, FramesOf, TypesRecovered, Indexed, AllIndexed, LocationIds, Values, Corrected, NameIndex;
    IndexedCounts(addrs, base, addrToLoc, functions, locations, bias);
    var p := Recovered(addrs, base, addrToLoc, samples, weight, bias, strings, types, defaultType);
    if base + |addrs| <= U32 {
      forall i | 0 <= i < |samples| ensures SampleRecovered(p, p.samples[i], samples[i], weight, bias) {
        SampleIsRecovered(p, addrs, base, addrToLoc, functions, locations, samples, weight, bias, strings, types, defaultType, i);
      }
    } else {
      var i := SampleIsLost(p, addrs, base, addrToLoc, functions, locations, samples, weight, bias, strings, types, defaultType);
    }
  }

  lemma IndexedCounts(addrs: seq<Address>, base: nat, addrToLoc: map<Address, nat>, functions: seq<Text>, locations: seq<Text>,
                      bias: Option<nat>)
    requires Indexed(addrs, base, addrToLoc, functions, locations, bias)
    ensures |addrs| == |addrToLoc.Keys| == |functions| == |locations|
  {
    assert |addrToLoc| == |addrToLoc.Keys|;
  }

  lemma SampleIsRecovered(p: Profile, addrs: seq<Address>, base: nat, addrToLoc: map<Address, nat>, functions: seq<Text>,
                          locations: seq<Text>, samples: seq<BtSample>, weight: Weight, bias: Option<nat>, strings: seq<Text>,
                          types: seq<TypeMsg>, defaultType: nat, i: nat)
    requires Indexed(addrs, base, addrToLoc, functions, locations, bias) && Named(strings, addrs, base)
    requires base + |addrs| <= U32
    requires forall k :: 0 <= k < |samples| ==> AllIndexed(samples[k].stack, addrToLoc)
    requires p == Recovered(addrs, base, addrToLoc, samples, weight, bias, strings, types, defaultType) && i < |samples|
    ensures SampleRecovered(p, p.samples[i], samples[i], weight, bias)
  {
    hide Encode, FunctionFields, LocationFields, HexAddr, Corrected, SampleWeight, FrameRecovered, Indexed, NameIndex, Named;
    var s, m := samples[i], p.samples[i];
    forall j | 0 <= j < |s.stack| ensures FrameRecovered(p, m.locations[j], s.stack[j], bias) {
      FrameIsRecovered(p, addrs, base, addrToLoc, functions, locations, samples, weight, bias, strings, types, defaultType, s.stack[j]);
    }
  }

  /** The frame leads to its name exactly if the index of that fits 32 bits. */
  lemma FrameIsRecovered(p: Profile, addrs: seq<Address>, base: nat, addrToLoc: map<Address, nat>, functions: seq<Text>,
                         locations: seq<Text>, samples: seq<BtSample>, weight: Weight, bias: Option<nat>, strings: seq<Text>,
                         types: seq<TypeMsg>, defaultType: nat, addr: Address)
    requires Indexed(addrs, base, addrToLoc, functions, locations, bias) && Named(strings, addrs, base)
    requires forall k :: 0 <= k < |samples| ==> AllIndexed(samples[k].stack, addrToLoc)
    requires p == Recovered(addrs, base, addrToLoc, samples, weight, bias, strings, types, defaultType) && addr in addrToLoc
    ensures 1 <= addrToLoc[addr] <= |addrs|
    ensures base + addrToLoc[addr] <= U32 ==> FrameRecovered(p, addrToLoc[addr], addr, bias)
    ensures base + addrToLoc[addr] == U32 + 1 ==> !FrameRecovered(p, addrToLoc[addr], addr, bias)
  {
    hide Corrected, AddressRecovered, AllIndexed, HexAddr, NameIndex, Named, HexNames, Holds, Entry;
    CorrectedIs(addr, bias);
    NameAt(strings, addrs, base, addrToLoc[addr] - 1);
  }

  lemma NameAt(strings: seq<Text>, addrs: seq<Address>, base: nat, i: nat)
    requires Named(strings, addrs, base) && i < |addrs|
    ensures base + i < U32 ==> Holds(strings, NameIndex(base, i), HexAddr(addrs[i]))
    ensures base + i == U32 ==> !Holds(strings, NameIndex(base, i), HexAddr(addrs[i]))
  {
    assert strings[base..][i] == HexAddr(addrs[i]);
    assert HexAddr(addrs[i]) != [];
    hide HexAddr;
  }

  /** The first address whose name does not fit loses it. */
  lemma SampleIsLost(p: Profile, addrs: seq<Address>, base: nat, addrToLoc: map<Address, nat>, functions: seq<Text>,
                     locations: seq<Text>, samples: seq<BtSample>, weight: Weight, bias: Option<nat>, strings: seq<Text>,
                     types: seq<TypeMsg>, defaultType: nat) returns (i: nat)
    requires Indexed(addrs, base, addrToLoc, functions, locations, bias) && Named(strings, addrs, base)
    requires base + |addrs| > U32 && addrToLoc.Keys == FramesOf(samples)
    requires forall k :: 0 <= k < |samples| ==> AllIndexed(samples[k].stack, addrToLoc)
    requires p == Recovered(addrs, base, addrToLoc, samples, weight, bias, strings, types, defaultType)
    ensures i < |samples| && !SampleRecovered(p, p.samples[i], samples[i], weight, bias)
  {
    hide Encode, FunctionFields, LocationFields, HexAddr, Corrected, SampleWeight, FrameRecovered, NameIndex, Entry, HexNames;
    var addr := addrs[U32 - base];
    assert addr in addrToLoc && addrToLoc[addr] == U32 - base + 1;
    assert addr in FramesOf(samples);
    var k, j :| 0 <= k < |samples| && 0 <= j < |samples[k].stack| && samples[k].stack[j] == addr;
    i := k;
    FrameIsRecovered(p, addrs, base, addrToLoc, functions, locations, samples, weight, bias, strings, types, defaultType, addr);
    assert p.samples[i].locations[j] == addrToLoc[addr];
  }

  /** A string table that starts with the four names given. */
  method NewTable(a: Text, b: Text, c: Text, d: Text) returns (table: StringTable, ia: nat, ib: nat, ic: nat, id: nat)
    requires [] != a && [] != b && [] != c && [] != d && a != b && a != c && a != d && b != c && b != d && c != d
    ensures fresh(table) && table.Valid() && table.strings == [[], a, b, c, d]
    ensures ia == 1 && ib == 2 && ic == 3 && id == 4
  {
    hide StringTable.Valid;
    AllNew(a, b, c, d);
    table := new StringTable();
    ghost var pos;
    ia, pos := table.Intern(a);
    ib, pos := table.Intern(b);
    ic, pos := table.Intern(c);
    id, pos := table.Intern(d);
  }

  lemma AllNew(a: Text, b: Text, c: Text, d: Text)
    requires [] != a && [] != b && [] != c && [] != d && a != b && a != c && a != d && b != c && b != d && c != d
    ensures var s: seq<Text> := [[]];
      a !in s && b !in s + [a] && c !in s + [a] + [b] && d !in s + [a] + [b] + [c] && s + [a] + [b] + [c] + [d] == [[], a, b, c, d]
  {}

  predicate Holds(strings: seq<Text>, idx: nat, s: Text) { idx < |strings| && strings[idx] == s }

  /** `write_pprof_with_bias`, without symbol names: whatever is written, reading
      it by the rules of the encoding gives the profile back, as long as the
      strings can be counted in 32 bits. */
  method WritePprof(samples: seq<BtSample>, weight: Weight, bias: Option<nat>) returns (out: Text, ghost p: Profile)
    ensures ReadProfile(out) == Some(p)
    ensures Faithful(p, samples, weight, bias) <==> 5 + |FramesOf(samples)| <= U32
  {
    hide Encode, ProfileFields, ReadProfile, Faithful, Indexed, FramesOf, ValueTypeFields, Recovered, SampleText, AllIndexed;
    hide FrameIndex.Valid;
    NamesApart();
    var table, sObjects, sCount, sSpace, sBytes := NewTable(ALLOC_OBJECTS, COUNT, ALLOC_SPACE, BYTES);
    var index := new FrameIndex(table, bias);
    IndexFrames(samples, index);
    FramesIndexed(samples, index.addrToLoc);
    var sampleTexts := SampleMessages(samples, weight, index.addrToLoc);
    var type0 := PairMessage(sObjects, sCount);
    var type1 := PairMessage(sSpace, sBytes);
    out := Assemble(type0, type1, sampleTexts, index.locations, index.functions, table.strings, sSpace);
    p := Conclude(index, samples, sampleTexts, weight, type0, type1);
  }

  lemma NamesApart()
    ensures forall s :: s in [[], ALLOC_OBJECTS, COUNT, ALLOC_SPACE, BYTES] ==> NotHex(s)
    ensures ALLOC_OBJECTS != ALLOC_SPACE && COUNT != BYTES && COUNT != ALLOC_OBJECTS && COUNT != ALLOC_SPACE
    ensures BYTES != ALLOC_OBJECTS && BYTES != ALLOC_SPACE
  {
    assert |ALLOC_OBJECTS| == 13 && |ALLOC_SPACE| == 11 && COUNT[0] == 99 && BYTES[0] == 98;
  }

  lemma Conclude(index: FrameIndex, samples: seq<BtSample>, sampleTexts: seq<Text>, weight: Weight,
                 type0: Text, type1: Text) returns (p: Profile)
    requires index.Valid() && index.addrToLoc.Keys == FramesOf(samples)
    requires index.first == [[], ALLOC_OBJECTS, COUNT, ALLOC_SPACE, BYTES]
    requires forall i :: 0 <= i < |samples| ==> AllIndexed(samples[i].stack, index.addrToLoc)
    requires |sampleTexts| == |samples|
    requires forall i :: 0 <= i < |samples| ==> sampleTexts[i] == SampleText(samples[i], weight, index.addrToLoc)
    requires type0 == Encode([Number(1, 1), Number(2, 2)]) && type1 == Encode([Number(1, 3), Number(2, 4)])
    ensures Faithful(p, samples, weight, index.bias) <==> 5 + |FramesOf(samples)| <= U32
    ensures ReadProfile(Encode(ProfileFields([type0, type1], sampleTexts, index.locations, index.functions, index.table.strings, 3))) == Some(p)
  {
    hide Encode, ProfileFields, ReadProfile, Faithful, FramesOf, ValueTypeFields, SampleText, AllIndexed;
    hide TypesRecovered, Indexed, Recovered;
    var types, strings := [TypeMsg(1, 2), TypeMsg(3, 4)], index.table.strings;
    p := Recovered(index.addrs, 5, index.addrToLoc, samples, weight, index.bias, strings, types, 3);
    TypeTexts(types[0]);
    TypeTexts(types[1]);
    RecoveredReads(index.addrs, 5, index.addrToLoc, index.functions, index.locations, samples, sampleTexts,
      weight, index.bias, strings, types, [type0, type1], 3);
    assert strings[0] == [] && strings[1] == ALLOC_OBJECTS && strings[2] == COUNT && strings[3] == ALLOC_SPACE && strings[4] == BYTES;
    TypesAreRecovered(p, index.addrs, 5, index.addrToLoc, samples, weight, index.bias, strings, types, 3);
    assert strings[5..] == HexNames(index.addrs);
    RecoveredFaithful(index.addrs, 5, index.addrToLoc, index.functions, index.locations, samples,
      weight, index.bias, strings, types, 3);
  }

  lemma TypeTexts(t: TypeMsg)
    ensures Encode(ValueTypeFields(t.kind, t.unit)) == Encode([Number(1, t.kind), Number(2, t.unit)])
  {}

  lemma TypesAreRecovered(p: Profile, addrs: seq<Address>, base: nat, addrToLoc: map<Address, nat>, samples: seq<BtSample>,
                          weight: Weight, bias: Option<nat>, strings: seq<Text>, types: seq<TypeMsg>, d: nat)
    requires forall i :: 0 <= i < |samples| ==> AllIndexed(samples[i].stack, addrToLoc)
    requires p == Recovered(addrs, base, addrToLoc, samples, weight, bias, strings, types, d)
    requires |types| == 2 && types[1].kind == d && Holds(strings, types[0].kind, ALLOC_OBJECTS) && Holds(strings, types[0].unit, COUNT)
    requires Holds(strings, types[1].kind, ALLOC_SPACE) && Holds(strings, types[1].unit, BYTES)
    ensures TypesRecovered(p)
  {}
}
