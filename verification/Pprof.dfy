/** The pprof encoder: a heap profile written as a Profile message, and what a
    reader of the message gets back. */
module Pprof {
  import opened Bits
  import opened Wire

  const U32: nat := 0x1_0000_0000

  /** A code address. */
  type Address = x: nat | x < WORD

  type Text = seq<Byte>

  datatype BtSample = BtSample(requestedSize: nat, allocatedSize: nat, weight: nat, stack: seq<Address>)

  datatype Weight = Requested | Allocated

  // ----- strings

  class StringTable {
    var strings: seq<Text>
    var index: map<Text, nat>

    /** No string twice; a string's index is its position cut to 32 bits. */
    ghost predicate Valid()
      reads this
    {
      && |strings| > 0 && strings[0] == []
      && (forall s :: s in index ==> s in strings)
      && (forall i :: 0 <= i < |strings| ==> strings[i] in index && index[strings[i]] == i % U32)
      && (forall i, j :: 0 <= i < j < |strings| ==> strings[i] != strings[j])
    }

    constructor ()
      ensures Valid() && strings == [[]]
    {
      strings, index := [[]], map[[] := 0];
    }

    /** `intern`: equal strings share an index, and positions never change. */
    method Intern(s: Text) returns (idx: nat, ghost pos: nat)
      requires Valid()
      modifies this
      ensures Valid() && pos < |strings| && strings[pos] == s && idx == pos % U32
      ensures if s in old(strings) then strings == old(strings) else strings == old(strings) + [s] && pos == |old(strings)|
    {
      if s in index {
        pos :| 0 <= pos < |strings| && strings[pos] == s;
        return index[s], pos;
      }
      pos := |strings|;
      idx := |strings| % U32;
      strings := strings + [s];
      index := index[s := idx];
    }
  }

  /** As long as there are at most 2^32 strings, and no longer, every index leads
      back to its string. */
  lemma IndexLeadsBack(strings: seq<Text>)
    requires forall i, j :: 0 <= i < j < |strings| ==> strings[i] != strings[j]
    ensures (forall i :: 0 <= i < |strings| ==> strings[i % U32] == strings[i]) <==> |strings| <= U32
  {
    if |strings| > U32 { assert strings[U32 % U32] != strings[U32]; }
  }

  function HexDigit(d: nat): Byte
    requires d < 16
  {
    if d < 10 then 48 + d else 87 + d
  }

  /** The low `n` hexadecimal digits. */
  function Hex(addr: nat, n: nat): (t: Text)
    ensures |t| == n
  {
    if n == 0 then [] else Hex(addr / 16, n - 1) + [HexDigit(addr % 16)]
  }

  /** "0x" and sixteen digits. */
  function HexAddr(addr: nat): Text { [48, 120] + Hex(addr, 16) }

  lemma {:induction false} HexInjective(a: nat, b: nat, n: nat)
    requires Hex(a, n) == Hex(b, n) && a < Power16(n) && b < Power16(n)
    ensures a == b
    decreases n
  {
    if n > 0 {
      var x, y := Hex(a, n), Hex(b, n);
      assert x[..n - 1] == Hex(a / 16, n - 1) && y[..n - 1] == Hex(b / 16, n - 1);
      assert x[n - 1] == HexDigit(a % 16) && y[n - 1] == HexDigit(b % 16);
      HexInjective(a / 16, b / 16, n - 1);
    }
  }

  function Power16(n: nat): nat { if n == 0 then 1 else 16 * Power16(n - 1) }

  /** The name given to a frame determines its address. */
  lemma HexAddrInjective(a: nat, b: nat)
    requires a < WORD && b < WORD && HexAddr(a) == HexAddr(b)
    ensures a == b
  {
    assert Power16(4) == 0x1_0000;
    assert Power16(8) == 0x1_0000_0000;
    assert Power16(12) == 0x1_0000_0000_0000;
    assert Power16(16) == WORD;
    assert HexAddr(a)[2..] == Hex(a, 16) && HexAddr(b)[2..] == Hex(b, 16);
    HexInjective(a, b, 16);
  }

  /** Reading a lower-case hexadecimal digit. */
  function ReadDigit(c: Byte): Option<nat> {
    if 48 <= c <= 57 then Some(c - 48) else if 97 <= c <= 102 then Some(c - 87) else None
  }

  function ReadHex(t: Text): Option<nat> {
    if t == [] then Some(0)
    else
      var n := |t| - 1;
      match (ReadHex(t[..n]), ReadDigit(t[n]))
      case (Some(high), Some(d)) => Some(16 * high + d)
      case _ => None
  }

  lemma {:induction false} HexReads(a: nat, n: nat)
    requires a < Power16(n)
    ensures ReadHex(Hex(a, n)) == Some(a)
    decreases n
  {
    if n > 0 {
      HexReads(a / 16, n - 1);
      var t := Hex(a, n);
      assert t[..n - 1] == Hex(a / 16, n - 1) && t[n - 1] == HexDigit(a % 16);
    }
  }

  /** The name of a frame is "0x" and sixteen digits that read as its address. */
  lemma HexAddrReads(a: nat)
    requires a < WORD
    ensures var t := HexAddr(a); |t| == 18 && t[..2] == Ascii("0x") && ReadHex(t[2..]) == Some(a)
  {
    assert Power16(4) == 0x1_0000;
    assert Power16(8) == 0x1_0000_0000;
    assert Power16(12) == 0x1_0000_0000_0000;
    assert Power16(16) == WORD;
    assert HexAddr(a)[2..] == Hex(a, 16);
    assert HexAddr(a)[..2] == [48, 120];
    assert Ascii("0x") == [48, 120];
    HexReads(a, 16);
  }

  /** The bytes of a text in ASCII. */
  function Ascii(s: string): Text {
    seq(|s|, i requires 0 <= i < |s| => if s[i] < 128 as char then s[i] as nat else 63)
  }

  function Corrected(addr: nat, bias: Option<nat>): nat {
    match bias
    case Some(b) => if addr < b then 0 else addr - b
    case None => addr
  }

  const U128_MAX: nat := WORD * WORD - 1

  function SampleWeight(s: BtSample, weight: Weight): nat {
    match weight
    case Requested => s.weight
    case Allocated =>
      if s.requestedSize == 0 then 0
      else
        var p: nat := s.weight * s.allocatedSize;
        Quotient(if p > U128_MAX then U128_MAX else p, s.requestedSize)
  }

  function Quotient(x: nat, y: nat): nat
    requires y > 0
  {
    x / y
  }

  /** The bytes a sample stands for: the weight itself, or the weight scaled by
      allocated over requested size and rounded down. */
  lemma WeightIs(s: BtSample)
    requires s.weight < WORD && s.allocatedSize < WORD
    ensures SampleWeight(s, Requested) == s.weight
    ensures s.requestedSize == 0 ==> SampleWeight(s, Allocated) == 0
    ensures s.requestedSize > 0 ==> var w := SampleWeight(s, Allocated);
      w * s.requestedSize <= s.weight * s.allocatedSize < (w + 1) * s.requestedSize
  {
    NoSaturation(s);
    if s.requestedSize > 0 {
      var x, y := s.weight * s.allocatedSize, s.requestedSize;
      var q := Quotient(x, y);
      assert x == q * y + x % y;
      assert (q + 1) * y == q * y + y;
    }
  }

  /** The product of two 64-bit sizes never saturates. */
  lemma NoSaturation(s: BtSample)
    requires s.weight < WORD && s.allocatedSize < WORD
    ensures s.weight * s.allocatedSize <= U128_MAX
    ensures s.requestedSize > 0 ==> SampleWeight(s, Allocated) == Quotient(s.weight * s.allocatedSize, s.requestedSize)
  {
    ProductBelow(s.weight, s.allocatedSize);
    hide Quotient;
  }

  lemma ProductBelow(x: nat, y: nat)
    requires x < WORD && y < WORD
    ensures 0 <= x * y <= U128_MAX
  {
    MulSign(x, y);
    MulMonotone(x, WORD - 1, y);
  }

  /** Reading a 64-bit word as a signed number. */
  function AsInt64(w: nat): int { if w % WORD < WORD / 2 then w % WORD else w % WORD - WORD }

  // ----- messages

  function FunctionFields(id: nat, name: nat): seq<Field> {
    [Number(1, id), Number(2, name), Number(3, name), Number(4, 0), Number(5, 0)]
  }

  function LineFields(functionId: nat): seq<Field> { [Number(1, functionId), Number(2, 0)] }

  function LocationFields(id: nat, address: nat): seq<Field> {
    [Number(1, id), Number(2, 0), Number(3, address), Bytes(4, Encode(LineFields(id)))]
  }

  function SampleFields(locations: seq<nat>, values: seq<nat>): seq<Field> {
    PackedFields(1, locations) + PackedFields(2, values)
  }

  function ValueTypeFields(kind: nat, unit: nat): seq<Field> { [Number(1, kind), Number(2, unit)] }

  function ProfileFields(types: seq<Text>, samples: seq<Text>, locations: seq<Text>, functions: seq<Text>,
                         strings: seq<Text>, defaultType: nat): seq<Field>
  {
    Wrap(1, types) + Wrap(2, samples) + Wrap(4, locations) + Wrap(5, functions) + Wrap(6, strings) + [Number(14, defaultType)]
  }

  // ----- the reader

  datatype SampleMsg = SampleMsg(locations: seq<nat>, values: seq<nat>)
  datatype LocationMsg = LocationMsg(id: nat, mapping: nat, address: nat, lines: seq<LineMsg>)
  datatype LineMsg = LineMsg(functionId: nat, line: nat)
  datatype FunctionMsg = FunctionMsg(id: nat, name: nat, systemName: nat, filename: nat, startLine: nat)
  datatype TypeMsg = TypeMsg(kind: nat, unit: nat)
  datatype Profile = Profile(types: seq<TypeMsg>, samples: seq<SampleMsg>, locations: seq<LocationMsg>,
                             functions: seq<FunctionMsg>, strings: seq<Text>, defaultType: nat)

  function ReadType(b: Text): Option<TypeMsg> {
    match Parse(b)
    case None => None
    case Some(fs) => Some(TypeMsg(Scalar(fs, 1), Scalar(fs, 2)))
  }

  function ReadSample(b: Text): Option<SampleMsg> {
    match Parse(b)
    case None => None
    case Some(fs) =>
      match (Repeated(fs, 1), Repeated(fs, 2))
      case (Some(ls), Some(vs)) => Some(SampleMsg(ls, vs))
      case _ => None
  }

  function ReadLine(b: Text): Option<LineMsg> {
    match Parse(b)
    case None => None
    case Some(fs) => Some(LineMsg(Scalar(fs, 1), Scalar(fs, 2)))
  }

  function ReadLocation(b: Text): Option<LocationMsg> {
    match Parse(b)
    case None => None
    case Some(fs) =>
      match ReadEach(Records(fs, 4), ReadLine)
      case None => None
      case Some(lines) => Some(LocationMsg(Scalar(fs, 1), Scalar(fs, 2), Scalar(fs, 3), lines))
  }

  function ReadFunction(b: Text): Option<FunctionMsg> {
    match Parse(b)
    case None => None
    case Some(fs) => Some(FunctionMsg(Scalar(fs, 1), Scalar(fs, 2), Scalar(fs, 3), Scalar(fs, 4), Scalar(fs, 5)))
  }

  function ReadEach<T>(bufs: seq<Text>, read: Text -> Option<T>): Option<seq<T>> {
    if bufs == [] then Some([])
    else match (read(bufs[0]), ReadEach(bufs[1..], read))
      case (Some(x), Some(xs)) => Some([x] + xs)
      case _ => None
  }

  /** The message by the rules of the encoding, and nothing the writer knows. */
  function ReadProfile(b: Text): Option<Profile> {
    match Parse(b)
    case None => None
    case Some(fs) =>
      match (ReadEach(Records(fs, 1), ReadType), ReadEach(Records(fs, 2), ReadSample),
             ReadEach(Records(fs, 4), ReadLocation), ReadEach(Records(fs, 5), ReadFunction))
      case (Some(ts), Some(ss), Some(ls), Some(gs)) =>
        Some(Profile(ts, ss, ls, gs, Records(fs, 6), Scalar(fs, 14)))
      case _ => None
  }

  lemma {:induction false} ReadsEach<T>(bufs: seq<Text>, read: Text -> Option<T>, xs: seq<T>)
    requires |bufs| == |xs| && forall i :: 0 <= i < |bufs| ==> read(bufs[i]) == Some(xs[i])
    ensures ReadEach(bufs, read) == Some(xs)
    decreases |bufs|
  {
    if bufs != [] {
      assert read(bufs[0]) == Some(xs[0]);
      forall i | 0 <= i < |bufs[1..]| ensures read(bufs[1..][i]) == Some(xs[1..][i]) { assert bufs[1..][i] == bufs[i + 1]; }
      ReadsEach(bufs[1..], read, xs[1..]);
      assert [xs[0]] + xs[1..] == xs;
    } else {
      assert xs == [];
    }
  }

  // ----- each message is read back

  lemma ScalarLast(fs: seq<Field>, f: Field, num: nat)
    ensures Scalar(fs + [f], num) == if f.Number? && f.num == num then f.value else Scalar(fs, num)
  {
    assert (fs + [f])[..|fs|] == fs;
  }

  lemma ScalarsOf(vs: seq<nat>, n: nat)
    requires 1 <= n <= |vs| <= 5
    ensures Scalar(Numbered(vs), n) == vs[n - 1]
    decreases |vs|
  {
    var m := |vs| - 1;
    assert Numbered(vs) == Numbered(vs[..m]) + [Number(m + 1, vs[m])];
    ScalarLast(Numbered(vs[..m]), Number(m + 1, vs[m]), n);
    if n < |vs| { ScalarsOf(vs[..m], n); }
  }

  /** The numbers as fields 1, 2, ... */
  function Numbered(vs: seq<nat>): seq<Field> {
    seq(|vs|, i requires 0 <= i < |vs| => Number(i + 1, vs[i]))
  }

  lemma TypeReads(kind: nat, unit: nat)
    ensures ReadType(Encode(ValueTypeFields(kind, unit))) == Some(TypeMsg(kind, unit))
  {
    RoundTrip(ValueTypeFields(kind, unit));
    assert ValueTypeFields(kind, unit) == Numbered([kind, unit]);
    hide Encode, Parse, Scalar;
    ScalarsOf([kind, unit], 1);
    ScalarsOf([kind, unit], 2);
  }

  lemma LineReads(id: nat)
    ensures ReadLine(Encode(LineFields(id))) == Some(LineMsg(id, 0))
  {
    RoundTrip(LineFields(id));
    assert LineFields(id) == Numbered([id, 0]);
    hide Encode, Parse, Scalar;
    ScalarsOf([id, 0], 1);
    ScalarsOf([id, 0], 2);
  }

  lemma FunctionReads(id: nat, name: nat)
    ensures ReadFunction(Encode(FunctionFields(id, name))) == Some(FunctionMsg(id, name, name, 0, 0))
  {
    RoundTrip(FunctionFields(id, name));
    var vs := [id, name, name, 0, 0];
    assert FunctionFields(id, name) == Numbered(vs);
    hide Encode, Parse, Scalar;
    ScalarsOf(vs, 1);
    ScalarsOf(vs, 2);
    ScalarsOf(vs, 3);
    ScalarsOf(vs, 4);
    ScalarsOf(vs, 5);
  }

  lemma LocationReads(id: nat, address: nat)
    ensures ReadLocation(Encode(LocationFields(id, address))) == Some(LocationMsg(id, 0, address, [LineMsg(id, 0)]))
  {
    var fs, line := LocationFields(id, address), Encode(LineFields(id));
    RoundTrip(fs);
    var vs := [id, 0, address];
    assert fs == Numbered(vs) + [Bytes(4, line)];
    LineReads(id);
    assert Records(fs, 4) == [line] by { LocationRecords(vs, line); }
    hide Encode, Parse, Scalar, Records, ReadLine, LineFields, LocationFields;
    ReadsEach([line], ReadLine, [LineMsg(id, 0)]);
    forall n | 1 <= n <= 3 ensures Scalar(fs, n) == vs[n - 1] {
      ScalarLast(Numbered(vs), Bytes(4, line), n);
      ScalarsOf(vs, n);
    }
  }

  lemma LocationRecords(vs: seq<nat>, line: Text)
    ensures Records(Numbered(vs) + [Bytes(4, line)], 4) == [line]
  {
    RecordsConcat(Numbered(vs), [Bytes(4, line)], 4);
    NoRecords(vs, 4);
    assert Records([Bytes(4, line)], 4) == [line] + Records([], 4);
  }

  lemma {:induction false} NoRecords(vs: seq<nat>, num: nat)
    ensures Records(Numbered(vs), num) == []
  {
    NoRecordsIn(Numbered(vs), num);
  }

  lemma {:induction false} NoRecordsIn(fs: seq<Field>, num: nat)
    requires forall i :: 0 <= i < |fs| ==> fs[i].Number?
    ensures Records(fs, num) == []
  {
    if fs != [] { NoRecordsIn(fs[1..], num); }
  }

  lemma SampleReads(locations: seq<nat>, values: seq<nat>)
    ensures ReadSample(Encode(SampleFields(locations, values))) == Some(SampleMsg(locations, values))
  {
    var fs := SampleFields(locations, values);
    RoundTrip(fs);
    PackedReads(locations, values, 1);
    PackedReads(locations, values, 2);
    hide Encode, Parse, Repeated;
  }

  lemma PackedReads(locations: seq<nat>, values: seq<nat>, num: nat)
    requires 1 <= num <= 2
    ensures Repeated(SampleFields(locations, values), num) == Some(if num == 1 then locations else values)
  {
    RepeatedThen(2, values, [], num);
    RepeatedThen(1, locations, PackedFields(2, values), num);
    assert PackedFields(2, values) + [] == PackedFields(2, values);
    assert Repeated([], num) == Some([]);
    hide Repeated, PackedFields;
    var tail: seq<nat> := if num == 2 then values else [];
    assert Repeated(PackedFields(2, values), num).value == tail + [] == tail;
    assert (if num == 1 then locations else []) + tail == if num == 1 then locations else values;
  }

  lemma RepeatedThen(at: nat, vs: seq<nat>, fs: seq<Field>, num: nat)
    requires Repeated(fs, num).Some?
    ensures Repeated(PackedFields(at, vs) + fs, num) == Some((if at == num then vs else []) + Repeated(fs, num).value)
  {
    PackedRoundTrip(vs);
    hide ReadPacked, Packed;
    var all, more := PackedFields(at, vs) + fs, Repeated(fs, num).value;
    if vs == [] {
      assert all == fs;
      assert [] + more == more;
    } else {
      assert all[1..] == fs && all[0] == Bytes(at, Packed(vs));
    }
  }
}
