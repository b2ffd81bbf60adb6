/** What the codecs of `IoTypes` do at their edges: fixed widths, the -1 length
    of empty strings, the character-count prefix, short input, and the way the
    composite codecs lay out and read back their parts. */
module CodecLaws {
  import opened Wire
  import Utf8
  import opened IoTypes

  /** `Short`, `Int` and `Long` write exactly `Width(c)` big-endian bytes of an
      unsigned value, and raise for a negative or too wide one. */
  lemma FixedWidthEncode(c: Codec, n: int)
    requires IsFixedWidth(c)
    ensures Encode(c, IntV(n)).Ok? <==> 0 <= n < Pow256(Width(c))
    ensures Encode(c, IntV(n)).Ok? ==>
              |Encode(c, IntV(n)).value| == Width(c) && FromBE(Encode(c, IntV(n)).value) == n
    ensures Encode(c, IntV(n)).Err? ==> Encode(c, IntV(n)).error == OverflowError
  {
  }

  /** The fixed-width decoders never fail and never return a negative: they read
      `Width(c)` bytes, or whatever is left when the input is short. */
  lemma FixedWidthDecode(c: Codec, s: seq<byte>, pos: nat)
    requires c.BoolC? || c.ByteC? || IsFixedWidth(c)
    requires pos <= |s|
    ensures var end := if pos + Width(c) <= |s| then pos + Width(c) else |s|;
            Decode(c, s, pos) ==
              Ok((if c.BoolC? then BoolV(FromBE(s[pos..end]) != 0) else IntV(FromBE(s[pos..end])), end))
  {
  }

  /** `Bool` and `Byte` raise whatever the value, and so does every union whose
      tag is a `Byte`: such a union can never be written. */
  lemma ByteTagNeverEncodes(vs: seq<Codec>, v: Value)
    ensures Encode(BoolC, v) == Err(TypeError) && Encode(ByteC, v) == Err(TypeError)
    ensures Encode(UnionC(ByteC, vs), v).Err?
  {
    assert Encode(UnionC(ByteC, vs), v) == EncodeUnion(ByteC, vs, v);
    if FirstMatch(vs, v).Ok? {
      assert Encode(ByteC, IntV(FirstMatch(vs, v).value)).Err?;
    }
  }

  /** `Union(Int, Bytes)` of `""`: `Bytes._FOR` is `str`, so the variant is
      picked and its tag written, and then `Bytes("")` raises `TypeError`. */
  lemma UnionConversionRaises()
    ensures FirstMatch([BytesC], StrV("")) == Ok(0)
    ensures Encode(IntC, IntV(0)).Ok?
    ensures Encode(UnionC(IntC, [BytesC]), StrV("")) == Err(TypeError)
  {
    assert Encode(UnionC(IntC, [BytesC]), StrV("")) == EncodeUnion(IntC, [BytesC], StrV(""));
    assert EncodeAs(BytesC, StrV("")) == Err(TypeError);
  }

  /** `A | B | C` on codecs that are not unions: the first `|` makes a union
      of the two tagged by a `Byte`, and the next one appends a variant to it;
      like every `Byte`-tagged union, the result cannot write any value. */
  lemma OrChain(a: Codec, b: Codec, c: Codec, v: Value)
    requires !a.UnionC?
    ensures Or(Or(a, b), c) == UnionC(ByteC, [a, b, c])
    ensures Encode(Or(Or(a, b), c), v).Err?
  {
    assert [a, b] + [c] == [a, b, c];
    ByteTagNeverEncodes([a, b, c], v);
  }

  /** A string, byte string or document is written as the four bytes FF FF FF FF
      exactly when it is empty. */
  lemma EmptyIsMinusOne(t: string, b: seq<byte>)
    ensures Encode(StringC, StrV(t)) == Ok(MinusOne) <==> t == []
    ensures Encode(RecordC, RecordV(t)) == Ok(MinusOne) <==> t == []
    ensures Encode(BytesC, BytesV(b)) == Ok(MinusOne) <==> b == []
  {
    if t != [] && |t| < Pow256(4) {
      assert |Encode(StringC, StrV(t)).value| == 4 + |Utf8.Encode(t)|;
    }
    if b != [] && |b| < Pow256(4) {
      assert |Encode(BytesC, BytesV(b)).value| == 4 + |b|;
    }
  }

  /** A tuple or list item reaches its codec unconverted. `Short`, `Int` and
      `Long` raise `AttributeError` for anything but an integer. `Bytes` and
      `String` write -1 for an empty value of any sized type. A non-empty value
      of another type raises: `TypeError` for `Bytes`, and `AttributeError`
      for `String`. */
  lemma ForeignItems(v: Value)
    ensures !(v.IntV? || v.BoolV?) ==>
              Encode(ShortC, v) == Err(AttributeError) && Encode(IntC, v) == Err(AttributeError) &&
              Encode(LongC, v) == Err(AttributeError)
    ensures Encode(BytesC, v) == Ok(MinusOne) <==> Len(v) == Some(0)
    ensures Encode(StringC, v) == Ok(MinusOne) <==> Len(v) == Some(0)
    ensures !v.BytesV? && Len(v).Some? && 0 < Len(v).value < Pow256(4) ==> Encode(BytesC, v) == Err(TypeError)
    ensures !v.StrV? && Len(v).Some? && 0 < Len(v).value < Pow256(4) ==> Encode(StringC, v) == Err(AttributeError)
    ensures Len(v).None? ==> Encode(BytesC, v) == Err(TypeError) && Encode(StringC, v) == Err(TypeError)
  {
    match v
    case StrV(t) => EmptyIsMinusOne(t, []);
    case BytesV(b) => EmptyIsMinusOne([], b);
    case _ =>
  }

  /** `Tuple(Int, Bytes, String)` of `("5", "", b"")` raises `AttributeError`
      at the `str` the `Int` gets, while `("", b"")` under
      `Tuple(Bytes, String)` writes -1 twice. */
  lemma ForeignTuple()
    ensures Encode(TupleC([IntC, BytesC, StringC]), TupleV([StrV("5"), StrV(""), BytesV([])])) == Err(AttributeError)
    ensures Encode(TupleC([BytesC, StringC]), TupleV([StrV(""), BytesV([])])) == Ok(MinusOne + MinusOne)
  {
    assert Encode(TupleC([IntC, BytesC, StringC]), TupleV([StrV("5"), StrV(""), BytesV([])])) ==
           EncodeZip([IntC, BytesC, StringC], [StrV("5"), StrV(""), BytesV([])]);
    var cs: seq<Codec> := [BytesC, StringC];
    var vs: seq<Value> := [StrV(""), BytesV([])];
    assert Encode(BytesC, StrV("")) == Ok(MinusOne);
    assert Encode(StringC, BytesV([])) == Ok(MinusOne);
    assert cs[1..][1..] == [] && vs[1..][1..] == [];
    assert EncodeZip(cs[1..], vs[1..]) == Ok(MinusOne + []);
    assert MinusOne + [] == MinusOne;
    assert EncodeZip(cs, vs) == Ok(MinusOne + MinusOne);
  }

  /** The -1 length is read unsigned, as 0xFFFF_FFFF: a byte string behind it
      takes every byte that is left in the buffer. */
  lemma MinusOneReadsRest(s: seq<byte>, pos: nat)
    requires At(s, pos, MinusOne) && |s| < pos + 4 + 0xFFFF_FFFF
    ensures DecodeSized(s, pos) == (s[pos + 4..], |s|)
    ensures Decode(BytesC, s, pos) == Ok((BytesV(s[pos + 4..]), |s|))
  {
    MinusOneReadsUnsigned();
    assert Read(s, pos, 4) == (MinusOne, pos + 4);
    assert s[pos + 4..|s|] == s[pos + 4..];
  }

  /** An empty string followed by anything does not read back as empty: it
      swallows what follows. */
  lemma EmptyStringSwallowsRest()
    ensures Encode(StringC, StrV("")) == Ok(MinusOne)
    ensures Decode(StringC, MinusOne + [0x41], 0) == Ok((StrV("A"), 5))
  {
    var s := MinusOne + [0x41];
    MinusOneReadsRest(s, 0);
    assert s[4..] == [0x41];
    assert Utf8.Decode([0x41]) == Some("A") by {
      assert Utf8.DecodeFrom([0x41], 1) == Some([]);
      assert Utf8.DecodeFrom([0x41], 0) == Utf8.Prepend(0x41 as char, Some([]));
      assert [0x41 as char] + [] == "A";
    }
  }

  /** The length of a string is its number of characters, but the decoder reads
      that many bytes: "é" is written with length 1 and two bytes, and reading it
      back stops in the middle of the character. */
  lemma CharCountPrefix()
    ensures Encode(StringC, StrV("é")) == Ok([0, 0, 0, 1, 0xC3, 0xA9])
    ensures Decode(StringC, [0, 0, 0, 1, 0xC3, 0xA9], 0) == Err(UnicodeDecodeError)
  {
    Utf8.TwoByteChar();
    var s: seq<byte> := [0, 0, 0, 1, 0xC3, 0xA9];
    assert ToBE(1, 4) == [0, 0, 0, 1];
    assert EncodeText("é") == Ok(ToBE(1, 4) + [0xC3, 0xA9]);
    assert Encode(StringC, StrV("é")) == EncodeTextual(StringC, StrV("é"));
    assert ToBE(1, 4) + [0xC3, 0xA9] == [0, 0, 0, 1, 0xC3, 0xA9];
    FromToBE(1, 4);
    assert s[0..4] == [0, 0, 0, 1];
    assert Read(s, 0, 4) == (ToBE(1, 4), 4);
    assert DecodeSized(s, 0) == ([0xC3], 5) by {
      assert s[4..5] == [0xC3];
      assert Read(s, 4, 1) == ([0xC3], 5);
    }
    assert DecodeText(s, 0) == Err(UnicodeDecodeError);
  }

  /** A union reads its tag, then the variant the tag indexes; an unsigned tag
      past the last variant raises `IndexError`. */
  lemma UnionDecodeByTag(tag: Codec, vs: seq<Codec>, s: seq<byte>, pos: nat)
    requires IsFixedWidth(tag) && pos <= |s|
    ensures var (b, p) := Read(s, pos, Width(tag));
            Decode(UnionC(tag, vs), s, pos) ==
              if FromBE(b) < |vs| then Decode(vs[FromBE(b)], s, p) else Err(IndexError)
  {
    assert Decode(UnionC(tag, vs), s, pos) == DecodeUnion(tag, vs, s, pos);
    assert Decode(tag, s, pos) == DecodeFixed(tag, s, pos);
  }

  /** A mapped union whose decoded key is in no entry raises `KeyError`. */
  lemma MappedKeyMissing(key: Codec, es: seq<(Value, Codec)>, s: seq<byte>, pos: nat)
    requires pos <= |s| && Decode(key, s, pos).Ok?
    requires forall j :: 0 <= j < |es| ==> es[j].0 != Decode(key, s, pos).value.0
    ensures Decode(OneOfMappedC(key, es), s, pos) == Err(KeyError)
  {
    LookupIsFirst(es, Decode(key, s, pos).value.0);
  }

  /** A union writes the index of the first variant whose type accepts the
      value, in the tag codec, and then the value made into that variant. */
  lemma UnionEncoding(tag: Codec, vs: seq<Codec>, v: Value, e: seq<byte>) returns (i: nat, head: seq<byte>, body: seq<byte>)
    requires Encode(UnionC(tag, vs), v) == Ok(e)
    ensures i < |vs| && ForMatches(vs[i], v) == Ok(true)
    ensures forall j :: 0 <= j < i ==> ForMatches(vs[j], v) == Ok(false)
    ensures Encode(tag, IntV(i)) == Ok(head) && Convert(vs[i], v).Ok?
    ensures Encode(vs[i], Convert(vs[i], v).value) == Ok(body) && e == head + body
  {
    FirstMatchIsFirst(vs, v);
    i := FirstMatch(vs, v).value;
    EncodeAsParts(vs[i], v);
    head := Encode(tag, IntV(i)).value;
    body := Encode(vs[i], Convert(vs[i], v).value).value;
  }

  /** A value no variant accepts raises `TypeError`. */
  lemma UnionRejects(tag: Codec, vs: seq<Codec>, v: Value)
    requires forall j :: 0 <= j < |vs| ==> ForMatches(vs[j], v) == Ok(false)
    ensures Encode(UnionC(tag, vs), v) == Err(TypeError)
  {
    FirstMatchIsFirst(vs, v);
  }

  /** Once the tag is written, making the value into the picked variant
      (`typ(self)`) can still raise, and that error is the union's. */
  lemma UnionConversionError(tag: Codec, vs: seq<Codec>, v: Value)
    requires FirstMatch(vs, v).Ok? && Encode(tag, IntV(FirstMatch(vs, v).value)).Ok?
    requires Convert(vs[FirstMatch(vs, v).value], v).Err?
    ensures Encode(UnionC(tag, vs), v) == Err(Convert(vs[FirstMatch(vs, v).value], v).error)
  {
    var i := FirstMatch(vs, v).value;
    assert EncodeAs(vs[i], v) == Err(Convert(vs[i], v).error);
    assert Encode(UnionC(tag, vs), v) == EncodeUnion(tag, vs, v);
  }

  /** A mapped union writes the key of the first entry, in insertion order,
      whose type accepts the value, and then the value made into that entry's
      codec. */
  lemma MappedEncoding(key: Codec, es: seq<(Value, Codec)>, v: Value, e: seq<byte>) returns (i: nat, head: seq<byte>, body: seq<byte>)
    requires Encode(OneOfMappedC(key, es), v) == Ok(e)
    ensures i < |es| && ForMatches(es[i].1, v) == Ok(true)
    ensures forall j :: 0 <= j < i ==> ForMatches(es[j].1, v) == Ok(false)
    ensures Encode(key, es[i].0) == Ok(head) && Convert(es[i].1, v).Ok?
    ensures Encode(es[i].1, Convert(es[i].1, v).value) == Ok(body) && e == head + body
  {
    FirstMatchIsFirst(Codecs(es), v);
    i := FirstMatch(Codecs(es), v).value;
    CodecsAt(es, i);
    forall j | 0 <= j < i ensures ForMatches(es[j].1, v) == Ok(false) {
      CodecsAt(es, j);
    }
    EncodeAsParts(es[i].1, v);
    head := Encode(key, es[i].0).value;
    body := Encode(es[i].1, Convert(es[i].1, v).value).value;
  }

  /** Two encodings in sequence: the first error wins, otherwise the bytes
      follow one another. */
  function Then(a: Result<seq<byte>>, b: Result<seq<byte>>): (r: Result<seq<byte>>)
    ensures r.Ok? <==> a.Ok? && b.Ok?
  {
    match a
    case Err(e) => Err(e)
    case Ok(x) => match b
      case Err(e) => Err(e)
      case Ok(y) => Ok(x + y)
  }

  /** A tuple is the in-order concatenation of its elements: splitting its
      codecs and values anywhere splits its bytes there. */
  lemma {:induction false} ZipConcat(cs1: seq<Codec>, vs1: seq<Value>, cs2: seq<Codec>, vs2: seq<Value>)
    requires |cs1| == |vs1|
    ensures EncodeZip(cs1 + cs2, vs1 + vs2) == Then(EncodeZip(cs1, vs1), EncodeZip(cs2, vs2))
  {
    if cs1 == [] {
      assert cs1 + cs2 == cs2 && vs1 + vs2 == vs2;
      match EncodeZip(cs2, vs2)
      case Err(_) =>
      case Ok(y) => assert [] + y == y;
    } else {
      ZipConcat(cs1[1..], vs1[1..], cs2, vs2);
      assert (cs1 + cs2)[0] == cs1[0] && (vs1 + vs2)[0] == vs1[0];
      assert (cs1 + cs2)[1..] == cs1[1..] + cs2;
      assert (vs1 + vs2)[1..] == vs1[1..] + vs2;
      match Encode(cs1[0], vs1[0])
      case Err(_) =>
      case Ok(head) =>
        match EncodeZip(cs1[1..], vs1[1..])
        case Err(_) =>
        case Ok(x) =>
          match EncodeZip(cs2, vs2)
          case Err(_) =>
          case Ok(y) =>
            assert head + (x + y) == (head + x) + y;
    }
  }

  /** The same as sequenced reads: a tuple's elements are decoded in order, each
      starting where the one before stopped. */
  lemma {:induction false} DecodeZipConcat(cs1: seq<Codec>, cs2: seq<Codec>, s: seq<byte>, pos: nat)
    requires pos <= |s|
    ensures DecodeZip(cs1 + cs2, s, pos) ==
              match DecodeZip(cs1, s, pos)
              case Err(e) => Err(e)
              case Ok((vs1, p)) =>
                match DecodeZip(cs2, s, p)
                case Err(e) => Err(e)
                case Ok((vs2, p2)) => Ok((vs1 + vs2, p2))
  {
    if cs1 == [] {
      assert cs1 + cs2 == cs2;
      assert DecodeZip(cs1, s, pos) == Ok(([], pos));
      match DecodeZip(cs2, s, pos)
      case Err(_) =>
      case Ok((ws, q)) =>
        assert [] + ws == ws;
        assert DecodeZip(cs1 + cs2, s, pos) == Ok((ws, q));
    } else {
      assert (cs1 + cs2)[0] == cs1[0];
      assert (cs1 + cs2)[1..] == cs1[1..] + cs2;
      match Decode(cs1[0], s, pos)
      case Err(_) =>
      case Ok((v, p)) =>
        DecodeZipConcat(cs1[1..], cs2, s, p);
        match DecodeZip(cs1[1..], s, p)
        case Err(_) =>
        case Ok((vs, q)) =>
          match DecodeZip(cs2, s, q)
          case Err(_) =>
          case Ok((ws, _)) =>
            assert [v] + (vs + ws) == ([v] + vs) + ws;
    }
  }

  /** A decoded list has as many items as the count read before them (none for
      a negative count). */
  lemma RepeatDecodeLength(item: Codec, count: Codec, s: seq<byte>, pos: nat)
    requires pos <= |s| && Decode(RepeatC(item, count), s, pos).Ok?
    ensures Decode(count, s, pos).Ok? && AsInt(Decode(count, s, pos).value.0).Some?
    ensures var k := AsInt(Decode(count, s, pos).value.0).value;
            var r := Decode(RepeatC(item, count), s, pos).value.0;
            r.ListV? && |r.items| == if k < 0 then 0 else k
  {
  }
}
