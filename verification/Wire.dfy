/** The Protocol Buffers wire format: base-128 varints and length-delimited
    records, written by hand and read back by the rules of the encoding. */
module Wire {

  type Byte = x: nat | x < 256

  datatype Option<T> = None | Some(value: T)

  // ----- varints

  function Varint(v: nat): (bs: seq<Byte>)
    ensures |bs| > 0
  {
    if v < 128 then [v] else [v % 128 + 128] + Varint(v / 128)
  }

  /** `varint`: push the low seven bits while more follow. */
  method WriteVarint(out: seq<Byte>, value: nat) returns (out': seq<Byte>)
    ensures out' == out + Varint(value)
  {
    out' := out;
    var v := value;
    while v >= 128
      invariant out' + Varint(v) == out + Varint(value)
    {
      assert out' + Varint(v) == (out' + [v % 128 + 128]) + Varint(v / 128);
      out' := out' + [v % 128 + 128];
      v := v / 128;
    }
    out' := out' + [v];
  }

  /** The number at the front, and the bytes after it. */
  function ReadVarint(bs: seq<Byte>): (r: Option<(nat, seq<Byte>)>)
    ensures r.Some? ==> |r.value.1| < |bs|
  {
    if bs == [] then None
    else if bs[0] < 128 then Some((bs[0], bs[1..]))
    else match ReadVarint(bs[1..])
      case None => None
      case Some((v, rest)) => Some((bs[0] - 128 + 128 * v, rest))
  }

  lemma {:induction false} VarintRoundTrip(v: nat, rest: seq<Byte>)
    ensures ReadVarint(Varint(v) + rest) == Some((v, rest))
  {
    var bs := Varint(v) + rest;
    if v < 128 {
      assert bs[1..] == rest;
    } else {
      VarintRoundTrip(v / 128, rest);
      assert bs[1..] == Varint(v / 128) + rest;
    }
  }

  /** A 64-bit number takes at most ten bytes, the limit of the encoding. */
  lemma VarintLength(v: nat)
    requires v < 0x1_0000_0000_0000_0000
    ensures |Varint(v)| <= 10
  {
    LengthStep(v, 9, 0x8000_0000_0000_0000);
  }

  lemma {:induction false} LengthStep(v: nat, n: nat, bound: nat)
    requires bound == Power128(n) && v < 128 * bound
    ensures |Varint(v)| <= n + 1
    decreases n
  {
    if v >= 128 && n > 0 { LengthStep(v / 128, n - 1, Power128(n - 1)); }
  }

  function Power128(n: nat): nat { if n == 0 then 1 else 128 * Power128(n - 1) }

  // ----- packed numbers

  function Packed(vs: seq<nat>): seq<Byte> {
    if vs == [] then [] else Varint(vs[0]) + Packed(vs[1..])
  }

  lemma {:induction false} PackedMore(vs: seq<nat>, v: nat)
    ensures Packed(vs + [v]) == Packed(vs) + Varint(v)
  {
    hide Varint;
    if vs == [] {
      assert (vs + [v])[1..] == [];
    } else {
      PackedMore(vs[1..], v);
      assert (vs + [v])[1..] == vs[1..] + [v];
    }
  }

  function ReadPacked(bs: seq<Byte>): Option<seq<nat>>
    decreases |bs|
  {
    if bs == [] then Some([])
    else match ReadVarint(bs)
      case None => None
      case Some((v, rest)) =>
        match ReadPacked(rest)
        case None => None
        case Some(vs) => Some([v] + vs)
  }

  lemma {:induction false} PackedRoundTrip(vs: seq<nat>)
    ensures ReadPacked(Packed(vs)) == Some(vs)
    decreases |vs|
  {
    if vs != [] {
      VarintRoundTrip(vs[0], Packed(vs[1..]));
      PackedRoundTrip(vs[1..]);
      assert [vs[0]] + vs[1..] == vs;
    }
  }

  // ----- records

  datatype Field = Number(num: nat, value: nat) | Bytes(num: nat, bytes: seq<Byte>)

  const WIRE_TYPE_VARINT: nat := 0
  const WIRE_TYPE_LEN: nat := 2

  function Tag(num: nat, wireType: nat): seq<Byte> { Varint(num * 8 + wireType) }

  function EncodeField(f: Field): (bs: seq<Byte>)
    ensures |bs| > 0
  {
    match f
    case Number(n, v) => Tag(n, WIRE_TYPE_VARINT) + Varint(v)
    case Bytes(n, b) => Tag(n, WIRE_TYPE_LEN) + Varint(|b|) + b
  }

  function Encode(fs: seq<Field>): seq<Byte> {
    if fs == [] then [] else EncodeField(fs[0]) + Encode(fs[1..])
  }

  lemma {:induction false} EncodeMore(fs: seq<Field>, f: Field)
    ensures Encode(fs + [f]) == Encode(fs) + EncodeField(f)
  {
    if fs == [] {
      hide EncodeField;
      assert (fs + [f])[1..] == [];
    } else {
      hide EncodeField;
      EncodeMore(fs[1..], f);
      assert (fs + [f])[1..] == fs[1..] + [f];
    }
  }

  function ParseField(bs: seq<Byte>): (r: Option<(Field, seq<Byte>)>)
    ensures r.Some? ==> |r.value.1| < |bs|
  {
    match ReadVarint(bs)
    case None => None
    case Some((t, rest)) =>
      match ReadVarint(rest)
      case None => None
      case Some((v, rest')) =>
        if t % 8 == WIRE_TYPE_VARINT then Some((Number(t / 8, v), rest'))
        else if t % 8 == WIRE_TYPE_LEN && v <= |rest'| then Some((Bytes(t / 8, rest'[..v]), rest'[v..]))
        else None
  }

  function Parse(bs: seq<Byte>): Option<seq<Field>>
    decreases |bs|
  {
    if bs == [] then Some([])
    else match ParseField(bs)
      case None => None
      case Some((f, rest)) =>
        match Parse(rest)
        case None => None
        case Some(fs) => Some([f] + fs)
  }

  lemma FieldRoundTrip(f: Field, rest: seq<Byte>)
    ensures ParseField(EncodeField(f) + rest) == Some((f, rest))
  {
    hide Varint, ReadVarint;
    match f
    case Number(n, v) =>
      assert EncodeField(f) + rest == Varint(n * 8) + (Varint(v) + rest);
      VarintRoundTrip(n * 8, Varint(v) + rest);
      VarintRoundTrip(v, rest);
    case Bytes(n, b) =>
      assert EncodeField(f) + rest == Varint(n * 8 + 2) + (Varint(|b|) + (b + rest));
      VarintRoundTrip(n * 8 + 2, Varint(|b|) + (b + rest));
      VarintRoundTrip(|b|, b + rest);
      assert (b + rest)[..|b|] == b && (b + rest)[|b|..] == rest;
  }

  /** Reading back any message gives its fields. */
  lemma {:induction false} RoundTrip(fs: seq<Field>)
    ensures Parse(Encode(fs)) == Some(fs)
    decreases |fs|
  {
    if fs != [] {
      hide ParseField, EncodeField;
      FieldRoundTrip(fs[0], Encode(fs[1..]));
      RoundTrip(fs[1..]);
      assert [fs[0]] + fs[1..] == fs;
    }
  }

  // ----- the writing functions

  method WriteUint64(out: seq<Byte>, num: nat, value: nat) returns (out': seq<Byte>)
    ensures out' == out + EncodeField(Number(num, value))
  {
    hide Varint;
    out' := WriteVarint(out, num * 8 + WIRE_TYPE_VARINT);
    out' := WriteVarint(out', value);
    assert out' == out + (Tag(num, WIRE_TYPE_VARINT) + Varint(value));
  }

  method WriteBytes(out: seq<Byte>, num: nat, bytes: seq<Byte>) returns (out': seq<Byte>)
    ensures out' == out + EncodeField(Bytes(num, bytes))
  {
    hide Varint;
    out' := WriteVarint(out, num * 8 + WIRE_TYPE_LEN);
    out' := WriteVarint(out', |bytes|);
    out' := out' + bytes;
    assert out' == out + (Tag(num, WIRE_TYPE_LEN) + Varint(|bytes|) + bytes);
  }

  /** The record of a packed field; an empty list writes nothing at all. */
  function PackedFields(num: nat, values: seq<nat>): seq<Field> {
    if values == [] then [] else [Bytes(num, Packed(values))]
  }

  method WritePacked(out: seq<Byte>, num: nat, values: seq<nat>) returns (out': seq<Byte>)
    ensures out' == out + Encode(PackedFields(num, values))
  {
    if values == [] { return out; }
    var buf := [];
    var i := 0;
    while i < |values|
      invariant 0 <= i <= |values| && buf == Packed(values[..i])
    {
      PackedMore(values[..i], values[i]);
      assert values[..i + 1] == values[..i] + [values[i]];
      buf := WriteVarint(buf, values[i]);
      i := i + 1;
    }
    assert values[..i] == values;
    out' := WriteBytes(out, num, buf);
    assert Encode([Bytes(num, buf)]) == EncodeField(Bytes(num, buf)) + [];
  }

  // ----- the fields of a message

  /** The contents of the length-delimited records of one number, in order. */
  function Records(fs: seq<Field>, num: nat): seq<seq<Byte>> {
    if fs == [] then []
    else (if fs[0].Bytes? && fs[0].num == num then [fs[0].bytes] else []) + Records(fs[1..], num)
  }

  /** The last number given for a field, zero when there is none. */
  function Scalar(fs: seq<Field>, num: nat): nat {
    if fs == [] then 0
    else
      var last := fs[|fs| - 1];
      if last.Number? && last.num == num then last.value else Scalar(fs[..|fs| - 1], num)
  }

  /** A repeated number, packed or not. */
  function Repeated(fs: seq<Field>, num: nat): Option<seq<nat>> {
    if fs == [] then Some([])
    else
      var first := if fs[0].num != num then Some([]) else if fs[0].Number? then Some([fs[0].value]) else ReadPacked(fs[0].bytes);
      match (first, Repeated(fs[1..], num))
      case (Some(a), Some(b)) => Some(a + b)
      case _ => None
  }

  lemma {:induction false} RecordsConcat(fs: seq<Field>, gs: seq<Field>, num: nat)
    ensures Records(fs + gs, num) == Records(fs, num) + Records(gs, num)
  {
    if fs == [] {
      assert fs + gs == gs;
    } else {
      assert (fs + gs)[1..] == fs[1..] + gs;
      RecordsConcat(fs[1..], gs, num);
    }
  }

  /** One record of the given number for each buffer. */
  function Wrap(num: nat, bufs: seq<seq<Byte>>): seq<Field> {
    seq(|bufs|, i requires 0 <= i < |bufs| => Bytes(num, bufs[i]))
  }

  lemma {:induction false} RecordsWrap(num: nat, bufs: seq<seq<Byte>>, other: nat)
    ensures Records(Wrap(num, bufs), other) == if other == num then bufs else []
    decreases |bufs|
  {
    if bufs != [] {
      assert Wrap(num, bufs)[1..] == Wrap(num, bufs[1..]);
      RecordsWrap(num, bufs[1..], other);
    }
  }

  lemma {:induction false} EncodeConcat(fs: seq<Field>, gs: seq<Field>)
    ensures Encode(fs + gs) == Encode(fs) + Encode(gs)
  {
    if fs == [] {
      assert fs + gs == gs;
    } else {
      assert (fs + gs)[1..] == fs[1..] + gs;
      EncodeConcat(fs[1..], gs);
    }
  }

  method WriteRecords(out: seq<Byte>, num: nat, bufs: seq<seq<Byte>>) returns (out': seq<Byte>)
    ensures out' == out + Encode(Wrap(num, bufs))
  {
    out' := out;
    var i := 0;
    assert Wrap(num, bufs[..0]) == [];
    while i < |bufs|
      invariant 0 <= i <= |bufs| && out' == out + Encode(Wrap(num, bufs[..i]))
    {
      hide Encode, EncodeField;
      assert Wrap(num, bufs[..i + 1]) == Wrap(num, bufs[..i]) + [Bytes(num, bufs[i])];
      EncodeMore(Wrap(num, bufs[..i]), Bytes(num, bufs[i]));
      out' := WriteBytes(out', num, bufs[i]);
      i := i + 1;
    }
    assert bufs[..i] == bufs;
  }

  /** Two records as the definition of the encoding gives them: field 1 with the
      number 150, and field 2 with the text "testing".  A number left out is zero. */
  lemma KnownBytes()
    ensures Encode([Number(1, 150)]) == [0x08, 0x96, 0x01] && Scalar([], 1) == 0
    ensures Encode([Bytes(2, [116, 101, 115, 116, 105, 110, 103])]) == [0x12, 0x07, 116, 101, 115, 116, 105, 110, 103]
  {
    assert Varint(150) == [0x96, 0x01];
    assert [Number(1, 150)][1..] == [];
    assert [Bytes(2, [116, 101, 115, 116, 105, 110, 103])][1..] == [];
  }
}
