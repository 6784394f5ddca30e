/** Writing index keys byte by byte into a growing buffer. */
module KeyWriter {
  import opened Bytes
  import opened Bits
  import opened Numbers
  import opened NumberParts
  import opened NumberEncoding
  import opened NumberCoder
  import opened Results
  import opened Values
  import opened IndexKey
  import opened KeyOrdering

  const TWO_64 := 0x1_0000_0000_0000_0000

  /** `(seconds as u64) ^ (1 << 63)`. */
  function FlippedSign(seconds: i64): (bits: nat)
    ensures bits == seconds + TWO_63
  {
    var word := if seconds < 0 then seconds + TWO_64 else seconds;
    if word >= TWO_63 then word - TWO_63 else word + TWO_63
  }

  lemma Associate(a: seq<byte>, b: seq<byte>, c: seq<byte>)
    ensures a + b + c == a + (b + c)
  {}

  lemma ItemsWritten(before: seq<byte>, values: seq<Value>)
    requires values != []
    ensures before + [ITEM] + Key(values[0]) + Items(values[1..]) == before + Items(values)
  {
    var k, rest := Key(values[0]), Items(values[1..]);
    Associate(before, [ITEM], k);
    Associate(before, [ITEM] + k, rest);
  }

  lemma FieldWritten(before: seq<byte>, v: Value, keys: seq<Utf8>)
    requires v.Map? && keys != [] && forall k :: k in keys ==> k in v.fields
    ensures before + [ITEM] + Escaped(keys[0]) + Key(v.fields[keys[0]]) + Fields(v, keys[1..])
         == before + Fields(v, keys)
  {
    var name, k, rest := Escaped(keys[0]), Key(v.fields[keys[0]]), Fields(v, keys[1..]);
    Associate(before, [ITEM], name);
    Associate(before, [ITEM] + name, k);
    Associate(before, [ITEM] + name + k, rest);
  }

  class KeyWriter {
    var out: seq<byte>

    constructor ()
      ensures out == []
    {
      out := [];
    }

    method Push(b: byte)
      modifies this
      ensures out == old(out) + [b]
    {
      out := out + [b];
    }

    method Extend(bytes: seq<byte>)
      modifies this
      ensures out == old(out) + bytes
    {
      out := out + bytes;
    }

    method WriteEscaped(bytes: seq<byte>)
      modifies this
      ensures out == old(out) + Escaped(bytes)
    {
      var i := 0;
      while i < |bytes|
        invariant 0 <= i <= |bytes|
        invariant out + Escaped(bytes[i..]) == old(out) + Escaped(bytes)
      {
        var rest := bytes[i..];
        assert rest[1..] == bytes[i + 1..];
        ghost var before := out;
        Push(bytes[i]);
        if bytes[i] == 0x00 {
          Push(0xFF);
        }
        assert out + Escaped(rest[1..]) == before + Escaped(rest);
        i := i + 1;
      }
      Push(0x00);
    }

    method WriteNumber(x: Number)
      modifies this
      ensures out == old(out) + EncodeNumber(x)
    {
      FromNumberCanonical(x);
      var bytes := EncodeBytes(FromNumber(x));
      Extend(bytes);
    }

    method WriteReference(path: Utf8)
      modifies this
      ensures out == old(out) + Segments(Split(path, SLASH))
    {
      var segments := Split(path, SLASH);
      var i := 0;
      while i < |segments|
        invariant 0 <= i <= |segments|
        invariant out + Segments(segments[i..]) == old(out) + Segments(segments)
      {
        ghost var rest, before := segments[i..], out;
        assert rest[1..] == segments[i + 1..];
        Push(ITEM);
        WriteEscaped(segments[i]);
        Associate(before, [ITEM], Escaped(rest[0]));
        Associate(before, [ITEM] + Escaped(rest[0]), Segments(rest[1..]));
        i := i + 1;
      }
      Push(END);
    }

    method WriteTimestamp(seconds: i64, nanos: Nanos)
      modifies this
      ensures out == old(out) + TimestampBytes(seconds, nanos)
    {
      Extend(BigEndian(FlippedSign(seconds), 8));
      Extend(BigEndian(nanos, 4));
    }

    method WriteItems(values: seq<Value>)
      modifies this
      ensures out == old(out) + Items(values)
      decreases values, 0
    {
      var i := 0;
      while i < |values|
        invariant 0 <= i <= |values|
        invariant out + Items(values[i..]) == old(out) + Items(values)
      {
        ghost var rest, before := values[i..], out;
        assert rest[1..] == values[i + 1..];
        Push(ITEM);
        WriteValue(values[i]);
        ItemsWritten(before, rest);
        i := i + 1;
      }
      Push(END);
    }

    method WriteElements(values: seq<Value>)
      modifies this
      ensures out == old(out) + Elements(values)
      decreases values, 0
    {
      var i := 0;
      while i < |values|
        invariant 0 <= i <= |values|
        invariant out + Elements(values[i..]) == old(out) + Elements(values)
      {
        ghost var rest, before := values[i..], out;
        assert rest[1..] == values[i + 1..];
        WriteValue(values[i]);
        assert out + Elements(rest[1..]) == before + Elements(rest);
        i := i + 1;
      }
    }

    method WriteFields(value: Value)
      requires value.Map?
      modifies this
      ensures out == old(out) + Fields(value, SortedKeys(value.fields.Keys))
      decreases value, 0
    {
      var keys := SortedKeys(value.fields.Keys);
      var i := 0;
      while i < |keys|
        invariant 0 <= i <= |keys|
        invariant forall k :: k in keys[i..] ==> k in value.fields
        invariant out + Fields(value, keys[i..]) == old(out) + Fields(value, keys)
      {
        ghost var rest, before := keys[i..], out;
        assert rest[1..] == keys[i + 1..] && keys[i] in keys;
        Push(ITEM);
        WriteEscaped(keys[i]);
        WriteValue(value.fields[keys[i]]);
        FieldWritten(before, value, rest);
        i := i + 1;
      }
      Push(END);
    }

    method WriteVector(elements: seq<Value>)
      requires |elements| < TWO_63
      modifies this
      ensures out == old(out) + (EncodeNumber(Int(|elements|)) + Elements(elements))
      decreases elements, 1
    {
      // The count leads.
      ghost var before := out;
      WriteNumber(Int(|elements|));
      WriteElements(elements);
      Associate(before, EncodeNumber(Int(|elements|)), Elements(elements));
    }

    method WriteGeoPoint(latitude: F64, longitude: F64)
      modifies this
      ensures out == old(out) + (EncodeNumber(Double(latitude)) + EncodeNumber(Double(longitude)))
    {
      WriteNumber(Double(latitude));
      WriteNumber(Double(longitude));
      Associate(old(out), EncodeNumber(Double(latitude)), EncodeNumber(Double(longitude)));
    }

    method WriteScalar(value: Value)
      requires !value.Array? && !value.Map?
      modifies this
      ensures out == old(out) + Payload(value)
    {
      match value
      case Null =>
      case Boolean(b) => Push(if b then 1 else 0);
      case Num(x) => WriteNumber(x);
      case Timestamp(seconds, nanos) => WriteTimestamp(seconds, nanos);
      case Text(s) => WriteEscaped(s);
      case Blob(b) => WriteEscaped(b);
      case Reference(r) => WriteReference(r);
      case GeoPoint(latitude, longitude) => WriteGeoPoint(latitude, longitude);
    }

    method WritePayload(value: Value)
      modifies this
      ensures out == old(out) + Payload(value)
      decreases value, 1
    {
      match value
      case Array(values) => WriteItems(values);
      case Map(fields) =>
        var elements := VectorValues(fields);
        if elements.Some? {
          WriteVector(elements.value);
        } else {
          WriteFields(value);
        }
      case _ => WriteScalar(value);
    }

    /** Appends the key of a value and nothing else. */
    method WriteValue(value: Value)
      modifies this
      ensures out == old(out) + Key(value)
      decreases value, 2
    {
      Push(Tag(value));
      WritePayload(value);
      Associate(old(out), [Tag(value)], Payload(value));
    }
  }

  method EncodeValue(value: Value) returns (key: seq<byte>)
    ensures key == Key(value)
  {
    var writer := new KeyWriter();
    writer.WriteValue(value);
    return writer.out;
  }

  method ToIndexString(key: seq<byte>) returns (s: Utf8)
    ensures s == Hex(key)
  {
    s := [];
    var i := 0;
    while i < |key|
      invariant 0 <= i <= |key|
      invariant s + Hex(key[i..]) == Hex(key)
    {
      var rest := key[i..];
      assert rest[1..] == key[i + 1..];
      s := s + [HexDigit(key[i] / 16), HexDigit(key[i] % 16)];
      i := i + 1;
    }
  }
}
