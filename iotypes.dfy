/** The binary type system: codecs described as values, an encoder that is a
    pure function to bytes, and a decoder over `(bytes, position)` that returns
    the value and the new position, exactly as the source's shared `BytesIO`
    cursor advances. */
module IoTypes {
  import opened Wire
  import Utf8

  /** A codec kind. `RecordC` stands for the JSON-backed kinds (an account or a
      record): a JSON document carried by the `String` codec. */
  datatype Codec =
    | BoolC
    | ByteC
    | ShortC
    | IntC
    | LongC
    | BytesC
    | StringC
    | RecordC
    | TupleC(elems: seq<Codec>)
    | RepeatC(item: Codec, count: Codec)
    | UnionC(tag: Codec, variants: seq<Codec>)
    | OneOfMappedC(key: Codec, entries: seq<(Value, Codec)>)

  /** A runtime value, by its Python type. */
  datatype Value =
    | BoolV(b: bool)
    | IntV(i: int)
    | BytesV(bytes: seq<byte>)
    | StrV(s: string)
    | RecordV(doc: string)
    | TupleV(items: seq<Value>)
    | ListV(items: seq<Value>)

  /** Python's `bool` is an `int`: both read as an integer. */
  function AsInt(v: Value): (r: Option<int>)
    ensures r.Some? <==> v.IntV? || v.BoolV?
  {
    match v
    case IntV(i) => Some(i)
    case BoolV(b) => Some(if b then 1 else 0)
    case _ => None
  }

  function Width(c: Codec): nat
  {
    match c
    case ShortC => 2
    case IntC => 4
    case LongC => 8
    case _ => 1
  }

  predicate IsFixedWidth(c: Codec)
  {
    c.ShortC? || c.IntC? || c.LongC?
  }

  /** `a | b` on codec classes: a union tagged by a `Byte` of the two, or,
      when `a` is a union already, that union with one more variant. */
  function Or(a: Codec, b: Codec): (r: Codec)
    ensures r.UnionC? && r.tag == (if a.UnionC? then a.tag else ByteC)
    ensures r.variants == (if a.UnionC? then a.variants else [a]) + [b]
  {
    if a.UnionC? then UnionC(a.tag, a.variants + [b]) else UnionC(ByteC, [a, b])
  }

  /** `isinstance(v, c._FOR)`. A union or mapped codec has no `_FOR`, so asking
      raises. `Bytes._FOR` is `str`, as in the source. */
  function ForMatches(c: Codec, v: Value): Result<bool>
  {
    match c
    case BoolC => Ok(v.BoolV?)
    case ByteC => Ok(v.IntV? || v.BoolV?)
    case ShortC => Ok(v.IntV? || v.BoolV?)
    case IntC => Ok(v.IntV? || v.BoolV?)
    case LongC => Ok(v.IntV? || v.BoolV?)
    case BytesC => Ok(v.StrV?)
    case StringC => Ok(v.StrV?)
    case RecordC => Ok(v.RecordV?)
    case TupleC(_) => Ok(v.TupleV?)
    case RepeatC(_, _) => Ok(v.ListV?)
    case UnionC(_, _) => Err(AttributeError)
    case OneOfMappedC(_, _) => Err(AttributeError)
  }

  /** The variant a union picks: the first, in declaration order, whose `_FOR`
      accepts the value. */
  function FirstMatch(vs: seq<Codec>, v: Value): (r: Result<nat>)
    ensures r.Ok? ==> r.value < |vs| && ForMatches(vs[r.value], v) == Ok(true)
    ensures r.Err? ==> r.error == TypeError || r.error == AttributeError
  {
    if vs == [] then Err(TypeError)
    else match ForMatches(vs[0], v)
      case Err(e) => Err(e)
      case Ok(true) => Ok(0)
      case Ok(false) =>
        match FirstMatch(vs[1..], v)
        case Ok(i) => Ok(i + 1)
        case Err(e) => Err(e)
  }

  /** The picked variant is the first that accepts the value, and no variant
      accepting it is exactly the `TypeError` case. */
  lemma {:induction false} FirstMatchIsFirst(vs: seq<Codec>, v: Value)
    ensures FirstMatch(vs, v).Ok? ==>
              forall j :: 0 <= j < FirstMatch(vs, v).value ==> ForMatches(vs[j], v) == Ok(false)
    ensures FirstMatch(vs, v) == Err(TypeError) <==>
              forall j :: 0 <= j < |vs| ==> ForMatches(vs[j], v) == Ok(false)
  {
    if vs != [] {
      FirstMatchIsFirst(vs[1..], v);
      assert forall j :: 1 <= j < |vs| ==> vs[j] == vs[1..][j - 1];
    }
  }

  function Codecs(es: seq<(Value, Codec)>): (r: seq<Codec>)
    ensures |r| == |es|
  {
    if es == [] then [] else [es[0].1] + Codecs(es[1..])
  }

  lemma {:induction false} CodecsAt(es: seq<(Value, Codec)>, i: nat)
    requires i < |es|
    ensures Codecs(es)[i] == es[i].1
  {
    if i > 0 { CodecsAt(es[1..], i - 1); }
  }

  /** `typs[key]` on the mapping: the entry that holds `key`. */
  function Lookup(es: seq<(Value, Codec)>, key: Value): (r: Option<nat>)
    ensures r.Some? ==> r.value < |es| && es[r.value].0 == key
  {
    if es == [] then None
    else if es[0].0 == key then Some(0)
    else match Lookup(es[1..], key)
      case Some(i) => Some(i + 1)
      case None => None
  }

  /** The entry found is the first holding the key; no entry holding it is
      exactly the `KeyError` case. */
  lemma {:induction false} LookupIsFirst(es: seq<(Value, Codec)>, key: Value)
    ensures Lookup(es, key).Some? ==> forall j :: 0 <= j < Lookup(es, key).value ==> es[j].0 != key
    ensures Lookup(es, key).None? <==> forall j :: 0 <= j < |es| ==> es[j].0 != key
  {
    if es != [] {
      LookupIsFirst(es[1..], key);
      assert forall j :: 1 <= j < |es| ==> es[j] == es[1..][j - 1];
    }
  }

  /** A length-prefixed body: the count written big-endian in four bytes, or
      -1 for an empty value. */
  function EncodeSized(count: nat, content: seq<byte>): Result<seq<byte>>
  {
    if count == 0 then Ok(MinusOne)
    else if count < Pow256(4) then Ok(ToBE(count, 4) + content)
    else Err(OverflowError)
  }

  /** A string's length in characters, then its UTF-8 bytes. */
  function EncodeText(t: string): Result<seq<byte>>
  {
    EncodeSized(|t|, Utf8.Encode(t))
  }

  /** `Short`, `Int` and `Long`: `self.to_bytes(w, "big")`, unsigned. A value
      that is not an integer has no `to_bytes`. */
  function EncodeInt(v: Value, w: nat): Result<seq<byte>>
  {
    match AsInt(v)
    case Some(n) => EncodeUint(n, w)
    case None => Err(AttributeError)
  }

  /** `len(x)`: strings, bytes, tuples and lists have a length; an integer or
      a JSON-backed object has none, and asking raises `TypeError`. */
  function Len(v: Value): Option<nat>
  {
    match v
    case StrV(s) => Some(|s|)
    case BytesV(b) => Some(|b|)
    case TupleV(items) => Some(|items|)
    case ListV(items) => Some(|items|)
    case _ => None
  }

  /** Iterating over a value, as `zip`, `tuple(x)` and `list(x)` do: the
      items of a tuple or list, the one-character strings of a `str`, the
      integers of a `bytes`. Anything else is not iterable. */
  function Elements(v: Value): (r: Option<seq<Value>>)
    ensures r.Some? <==> Len(v).Some?
    ensures r.Some? ==> Len(v) == Some(|r.value|)
  {
    match v
    case TupleV(items) => Some(items)
    case ListV(items) => Some(items)
    case StrV(s) => Some(Chars(s))
    case BytesV(b) => Some(ByteItems(b))
    case _ => None
  }

  /** The one-character strings of a `str`, in order. */
  function Chars(s: string): (r: seq<Value>)
    ensures |r| == |s|
  {
    if s == [] then [] else [StrV([s[0]])] + Chars(s[1..])
  }

  /** The integers of a `bytes`, in order. */
  function ByteItems(b: seq<byte>): (r: seq<Value>)
    ensures |r| == |b|
  {
    if b == [] then [] else [IntV(b[0])] + ByteItems(b[1..])
  }

  /** `typ(x)`: the value a codec makes of `x`, as a packet field does with
      each argument (`typ(arg) if not isinstance(arg, typ) else arg`) and a
      union with the value it writes (`typ(self)`). The integer kinds keep
      the integer (a `bool` becomes 0 or 1), a tuple or list codec takes the
      elements of any iterable, and a union or mapped union keeps the value
      when one of its variants accepts it. `Bytes` of a `str` raises, for
      want of an encoding. */
  function Convert(c: Codec, v: Value): (r: Result<Value>)
    ensures r.Ok? && (c.UnionC? || c.OneOfMappedC?) ==> r.value == v
    ensures r.Ok? && c.TupleC? ==> r.value.TupleV? && Elements(v) == Some(r.value.items)
    ensures r.Ok? && c.RepeatC? ==> r.value.ListV? && Elements(v) == Some(r.value.items)
  {
    match c
    case BoolC | ByteC | ShortC | IntC | LongC =>
      (match AsInt(v)
       case Some(n) => Ok(IntV(n))
       case None => Err(TypeError))
    case BytesC => if v.BytesV? then Ok(v) else Err(TypeError)
    case StringC => if v.StrV? then Ok(v) else Err(TypeError)
    case RecordC => if v.RecordV? then Ok(v) else Err(TypeError)
    case TupleC(_) =>
      (match Elements(v)
       case Some(items) => Ok(TupleV(items))
       case None => Err(TypeError))
    case RepeatC(_, _) =>
      (match Elements(v)
       case Some(items) => Ok(ListV(items))
       case None => Err(TypeError))
    case UnionC(_, vs) =>
      (match FirstMatch(vs, v)
       case Ok(_) => Ok(v)
       case Err(e) => Err(e))
    case OneOfMappedC(_, es) =>
      (match FirstMatch(Codecs(es), v)
       case Ok(_) => Ok(v)
       case Err(e) => Err(e))
  }

  /** `Bytes` or `String` of a value of another type, which only a tuple or
      list item can be: `len` is taken first, an empty value of any sized type
      is written as -1, and the count is converted before the content is
      appended, which then raises `e`. */
  function EncodeForeign(v: Value, e: Error): (r: Result<seq<byte>>)
    ensures r.Ok? <==> Len(v) == Some(0)
    ensures r.Ok? ==> r.value == MinusOne
  {
    match Len(v)
    case None => Err(TypeError)
    case Some(n) => if n == 0 then Ok(MinusOne) else if n < Pow256(4) then Err(e) else Err(OverflowError)
  }

  /** `String` writes a `str`, and of other sized values only an empty one:
      `bytes`, tuples and lists have no `encode`. The JSON-backed kinds write
      the document of `self.get_dict()` (or of `self.schema().dump(self)`),
      which a value of another type does not have. */
  function EncodeTextual(c: Codec, v: Value): Result<seq<byte>>
    requires c.StringC? || c.RecordC?
  {
    if c.StringC? then (if v.StrV? then EncodeText(v.s) else EncodeForeign(v, AttributeError))
    else if v.RecordV? then EncodeText(v.doc) else Err(AttributeError)
  }

  /** `to_cr_bytes`. `Bool` and `Byte` call `int.to_bytes(1, "big")`, which
      raises whatever the value: both always fail. */
  function Encode(c: Codec, v: Value): Result<seq<byte>>
    decreases c, 1
  {
    match c
    case BoolC | ByteC => Err(TypeError)
    case ShortC | IntC | LongC => EncodeInt(v, Width(c))
    case BytesC => if v.BytesV? then EncodeSized(|v.bytes|, v.bytes) else EncodeForeign(v, TypeError)
    case StringC | RecordC => EncodeTextual(c, v)
    case TupleC(cs) => EncodeTuple(cs, v)
    case RepeatC(item, count) => EncodeRepeat(item, count, v)
    case UnionC(tag, vs) => EncodeUnion(tag, vs, v)
    case OneOfMappedC(key, es) => EncodeMapped(key, es, v)
  }

  /** A tuple: `zip(typs, self)` over any iterable. */
  function EncodeTuple(cs: seq<Codec>, v: Value): Result<seq<byte>>
    decreases TupleC(cs), 0
  {
    match Elements(v)
    case Some(items) => EncodeZip(cs, items)
    case None => Err(TypeError)
  }

  /** A list: its length in the count codec, then every item. Any iterable
      with a length will do. */
  function EncodeRepeat(item: Codec, count: Codec, v: Value): Result<seq<byte>>
    decreases RepeatC(item, count), 0
  {
    match Elements(v)
    case None => Err(TypeError)
    case Some(items) =>
      match Encode(count, IntV(|items|))
      case Err(e) => Err(e)
      case Ok(head) =>
        match EncodeAll(item, items)
        case Err(e) => Err(e)
        case Ok(body) => Ok(head + body)
  }

  /** A union: the index of the first variant that accepts the value, in the
      tag codec, then the value made into that variant (`typ(self)`) and
      written in it. */
  function EncodeUnion(tag: Codec, vs: seq<Codec>, v: Value): Result<seq<byte>>
    decreases UnionC(tag, vs), 0
  {
    match FirstMatch(vs, v)
    case Err(e) => Err(e)
    case Ok(i) =>
      match Encode(tag, IntV(i))
      case Err(e) => Err(e)
      case Ok(head) =>
        match EncodeAs(vs[i], v)
        case Err(e) => Err(e)
        case Ok(body) => Ok(head + body)
  }

  /** A mapped union: the key of the first entry whose codec accepts the value,
      then the value made into that codec (`typ(self)`) and written in it. */
  function EncodeMapped(key: Codec, es: seq<(Value, Codec)>, v: Value): Result<seq<byte>>
    decreases OneOfMappedC(key, es), 0
  {
    match FirstMatch(Codecs(es), v)
    case Err(e) => Err(e)
    case Ok(i) =>
      match Encode(key, es[i].0)
      case Err(e) => Err(e)
      case Ok(head) =>
        match EncodeAs(es[i].1, v)
        case Err(e) => Err(e)
        case Ok(body) => Ok(head + body)
  }

  /** `typ(self).to_cr_bytes()`: the value made into the codec's type, then
      written in it. */
  function EncodeAs(c: Codec, v: Value): Result<seq<byte>>
    decreases c, 2
  {
    match Convert(c, v)
    case Err(e) => Err(e)
    case Ok(w) => Encode(c, w)
  }

  /** A value the conversion accepts is written as what it converts to. */
  lemma EncodeAsParts(c: Codec, v: Value)
    requires EncodeAs(c, v).Ok?
    ensures Convert(c, v).Ok? && Encode(c, Convert(c, v).value) == EncodeAs(c, v)
  {
  }

  /** `zip(typs, self)`: pairs elements with codecs and stops at the shorter. */
  function EncodeZip(cs: seq<Codec>, vs: seq<Value>): Result<seq<byte>>
    decreases cs, 0
  {
    if cs == [] || vs == [] then Ok([])
    else
      match Encode(cs[0], vs[0])
      case Err(e) => Err(e)
      case Ok(head) =>
        match EncodeZip(cs[1..], vs[1..])
        case Err(e) => Err(e)
        case Ok(tail) => Ok(head + tail)
  }

  function EncodeAll(item: Codec, vs: seq<Value>): Result<seq<byte>>
    decreases item, |vs| + 1
  {
    if vs == [] then Ok([])
    else
      match Encode(item, vs[0])
      case Err(e) => Err(e)
      case Ok(head) =>
        match EncodeAll(item, vs[1..])
        case Err(e) => Err(e)
        case Ok(tail) => Ok(head + tail)
  }

  /** The four-byte length, read unsigned, then that many bytes (or what is left). */
  function DecodeSized(s: seq<byte>, pos: nat): (r: (seq<byte>, nat))
    requires pos <= |s|
    ensures pos <= r.1 <= |s|
  {
    var (lb, p) := Read(s, pos, 4);
    Read(s, p, FromBE(lb))
  }

  function DecodeText(s: seq<byte>, pos: nat): (r: Result<(string, nat)>)
    requires pos <= |s|
    ensures r.Ok? ==> pos <= r.value.1 <= |s|
  {
    var (content, p) := DecodeSized(s, pos);
    match Utf8.Decode(content)
    case None => Err(UnicodeDecodeError)
    case Some(t) => Ok((t, p))
  }

  /** The fixed-width kinds: `Width(c)` bytes, big-endian; `Bool` is any
      non-zero byte. */
  function DecodeFixed(c: Codec, s: seq<byte>, pos: nat): (r: Result<(Value, nat)>)
    requires c.BoolC? || c.ByteC? || IsFixedWidth(c)
    requires pos <= |s|
    ensures r.Ok? ==> pos <= r.value.1 <= |s|
  {
    var (b, p) := Read(s, pos, Width(c));
    Ok((if c.BoolC? then BoolV(FromBE(b) != 0) else IntV(FromBE(b)), p))
  }

  function DecodeTextual(c: Codec, s: seq<byte>, pos: nat): (r: Result<(Value, nat)>)
    requires c.StringC? || c.RecordC?
    requires pos <= |s|
    ensures r.Ok? ==> pos <= r.value.1 <= |s|
  {
    match DecodeText(s, pos)
    case Err(e) => Err(e)
    case Ok((t, p)) => Ok((if c.StringC? then StrV(t) else RecordV(t), p))
  }

  /** `from_cr_buffer` on a buffer positioned at `pos`. */
  function Decode(c: Codec, s: seq<byte>, pos: nat): (r: Result<(Value, nat)>)
    requires pos <= |s|
    ensures r.Ok? ==> pos <= r.value.1 <= |s|
    decreases c, 1
  {
    match c
    case BoolC | ByteC | ShortC | IntC | LongC => DecodeFixed(c, s, pos)
    case BytesC =>
      var (content, p) := DecodeSized(s, pos);
      Ok((BytesV(content), p))
    case StringC | RecordC => DecodeTextual(c, s, pos)
    case TupleC(cs) =>
      (match DecodeZip(cs, s, pos)
       case Err(e) => Err(e)
       case Ok((vs, p)) => Ok((TupleV(vs), p)))
    case RepeatC(item, count) => DecodeRepeat(item, count, s, pos)
    case UnionC(tag, vs) => DecodeUnion(tag, vs, s, pos)
    case OneOfMappedC(key, es) => DecodeMapped(key, es, s, pos)
  }

  /** A list: the count, then that many items (a negative count reads none). */
  function DecodeRepeat(item: Codec, count: Codec, s: seq<byte>, pos: nat): (r: Result<(Value, nat)>)
    requires pos <= |s|
    ensures r.Ok? ==> pos <= r.value.1 <= |s|
    decreases RepeatC(item, count), 0
  {
    match Decode(count, s, pos)
    case Err(e) => Err(e)
    case Ok((n, p)) =>
      match AsInt(n)
      case None => Err(TypeError)
      case Some(k) =>
        match DecodeN(item, if k < 0 then 0 else k, s, p)
        case Err(e) => Err(e)
        case Ok((vs, p2)) => Ok((ListV(vs), p2))
  }

  /** A union: the tag, then the variant it indexes; a negative tag counts from
      the end, as Python indexing does. */
  function DecodeUnion(tag: Codec, vs: seq<Codec>, s: seq<byte>, pos: nat): (r: Result<(Value, nat)>)
    requires pos <= |s|
    ensures r.Ok? ==> pos <= r.value.1 <= |s|
    decreases UnionC(tag, vs), 0
  {
    match Decode(tag, s, pos)
    case Err(e) => Err(e)
    case Ok((t, p)) =>
      match AsInt(t)
      case None => Err(TypeError)
      case Some(k) =>
        if 0 <= k < |vs| then Decode(vs[k], s, p)
        else if -|vs| <= k < 0 then Decode(vs[k + |vs|], s, p)
        else Err(IndexError)
  }

  /** A mapped union: the key, then the codec the key maps to. */
  function DecodeMapped(key: Codec, es: seq<(Value, Codec)>, s: seq<byte>, pos: nat): (r: Result<(Value, nat)>)
    requires pos <= |s|
    ensures r.Ok? ==> pos <= r.value.1 <= |s|
    decreases OneOfMappedC(key, es), 0
  {
    match Decode(key, s, pos)
    case Err(e) => Err(e)
    case Ok((t, p)) =>
      match Lookup(es, t)
      case None => Err(KeyError)
      case Some(i) => Decode(es[i].1, s, p)
  }

  function DecodeZip(cs: seq<Codec>, s: seq<byte>, pos: nat): (r: Result<(seq<Value>, nat)>)
    requires pos <= |s|
    ensures r.Ok? ==> pos <= r.value.1 <= |s| && |r.value.0| == |cs|
    decreases cs, 0
  {
    if cs == [] then Ok(([], pos))
    else
      match Decode(cs[0], s, pos)
      case Err(e) => Err(e)
      case Ok((v, p)) =>
        match DecodeZip(cs[1..], s, p)
        case Err(e) => Err(e)
        case Ok((vs, p2)) => Ok(([v] + vs, p2))
  }

  /** `[typ.from_cr_buffer(buf) for _ in range(n)]`: exactly `n` items. */
  function DecodeN(item: Codec, n: nat, s: seq<byte>, pos: nat): (r: Result<(seq<Value>, nat)>)
    requires pos <= |s|
    ensures r.Ok? ==> pos <= r.value.1 <= |s| && |r.value.0| == n
    decreases item, n + 1
  {
    if n == 0 then Ok(([], pos))
    else
      match Decode(item, s, pos)
      case Err(e) => Err(e)
      case Ok((v, p)) =>
        match DecodeN(item, n - 1, s, p)
        case Err(e) => Err(e)
        case Ok((vs, p2)) => Ok(([v] + vs, p2))
  }

  /** `e` sits in `s` at `pos`. */
  predicate At(s: seq<byte>, pos: nat, e: seq<byte>)
  {
    pos + |e| <= |s| && s[pos..pos + |e|] == e
  }

  lemma AtSplit(s: seq<byte>, pos: nat, a: seq<byte>, b: seq<byte>)
    requires At(s, pos, a + b)
    ensures At(s, pos, a) && At(s, pos + |a|, b)
  {
    assert s[pos..pos + |a|] == (a + b)[..|a|];
    assert s[pos + |a|..pos + |a| + |b|] == (a + b)[|a|..];
  }

  /** The values a codec carries through an encode and a decode unchanged,
      whatever follows them in the buffer: integers in range, non-empty byte
      strings, non-empty strings of one-byte characters, and composites of
      those. `Bool` and `Byte` carry none, their encoder being broken. */
  predicate Faithful(c: Codec, v: Value)
    decreases c, 1
  {
    match c
    case BoolC | ByteC => false
    case ShortC | IntC | LongC => v.IntV? && 0 <= v.i < Pow256(Width(c))
    case BytesC => v.BytesV? && 0 < |v.bytes| < Pow256(4)
    case StringC => v.StrV? && FaithfulText(v.s)
    case RecordC => v.RecordV? && FaithfulText(v.doc)
    case TupleC(cs) => v.TupleV? && FaithfulZip(cs, v.items)
    case RepeatC(item, count) => FaithfulRepeat(item, count, v)
    case UnionC(tag, vs) => FaithfulUnion(tag, vs, v)
    case OneOfMappedC(key, es) => FaithfulMapped(key, es, v)
  }

  predicate FaithfulText(t: string)
  {
    0 < |t| < Pow256(4) && Utf8.IsAscii(t)
  }

  predicate FaithfulZip(cs: seq<Codec>, vs: seq<Value>)
    decreases cs, 0
  {
    |cs| == |vs| && (cs != [] ==> Faithful(cs[0], vs[0]) && FaithfulZip(cs[1..], vs[1..]))
  }

  predicate FaithfulRepeat(item: Codec, count: Codec, v: Value)
    decreases RepeatC(item, count), 0
  {
    v.ListV? && Faithful(count, IntV(|v.items|)) && FaithfulAll(item, v.items)
  }

  predicate FaithfulAll(item: Codec, vs: seq<Value>)
    decreases item, |vs| + 1
  {
    vs != [] ==> Faithful(item, vs[0]) && FaithfulAll(item, vs[1..])
  }

  /** The variant picked for the value carries it, and its index fits the tag. */
  predicate FaithfulUnion(tag: Codec, vs: seq<Codec>, v: Value)
    decreases UnionC(tag, vs), 0
  {
    FirstMatch(vs, v).Ok? &&
    Faithful(tag, IntV(FirstMatch(vs, v).value)) && Faithful(vs[FirstMatch(vs, v).value], v)
  }

  /** The entry picked for the value carries it, and its key reads back to it. */
  predicate FaithfulMapped(key: Codec, es: seq<(Value, Codec)>, v: Value)
    decreases OneOfMappedC(key, es), 0
  {
    FirstMatch(Codecs(es), v).Ok? &&
    var i := FirstMatch(Codecs(es), v).value;
    Lookup(es, es[i].0) == Some(i) && Faithful(key, es[i].0) && Faithful(es[i].1, v)
  }

  /** A faithful value is already of its codec's type: making it into that
      type leaves it as it is. */
  lemma FaithfulConverts(c: Codec, v: Value)
    requires Faithful(c, v)
    ensures Convert(c, v) == Ok(v)
  {
  }

  /** Every faithful value encodes without raising. */
  lemma {:induction false} FaithfulEncodes(c: Codec, v: Value)
    requires Faithful(c, v)
    ensures Encode(c, v).Ok?
    decreases c, 1
  {
    match c
    case TupleC(cs) => FaithfulEncodesZip(cs, v.items);
    case RepeatC(item, count) => FaithfulEncodesRepeat(item, count, v);
    case UnionC(tag, vs) => FaithfulEncodesUnion(tag, vs, v);
    case OneOfMappedC(key, es) => FaithfulEncodesMapped(key, es, v);
    case StringC | RecordC => FaithfulTextEncodes(c, v);
    case _ =>
  }

  lemma FaithfulTextEncodes(c: Codec, v: Value)
    requires c.StringC? || c.RecordC?
    requires Faithful(c, v)
    ensures Encode(c, v).Ok?
  {
  }

  lemma {:induction false} FaithfulEncodesRepeat(item: Codec, count: Codec, v: Value)
    requires FaithfulRepeat(item, count, v)
    ensures EncodeRepeat(item, count, v).Ok?
    decreases RepeatC(item, count), 0
  {
    FaithfulEncodes(count, IntV(|v.items|));
    FaithfulEncodesAll(item, v.items);
  }

  lemma {:induction false} FaithfulEncodesUnion(tag: Codec, vs: seq<Codec>, v: Value)
    requires FaithfulUnion(tag, vs, v)
    ensures EncodeUnion(tag, vs, v).Ok?
    decreases UnionC(tag, vs), 0
  {
    var i := FirstMatch(vs, v).value;
    FaithfulEncodes(tag, IntV(i));
    FaithfulConverts(vs[i], v);
    FaithfulEncodes(vs[i], v);
  }

  lemma {:induction false} FaithfulEncodesMapped(key: Codec, es: seq<(Value, Codec)>, v: Value)
    requires FaithfulMapped(key, es, v)
    ensures EncodeMapped(key, es, v).Ok?
    decreases OneOfMappedC(key, es), 0
  {
    var i := FirstMatch(Codecs(es), v).value;
    FaithfulEncodes(key, es[i].0);
    FaithfulConverts(es[i].1, v);
    FaithfulEncodes(es[i].1, v);
  }

  lemma {:induction false} FaithfulEncodesZip(cs: seq<Codec>, vs: seq<Value>)
    requires FaithfulZip(cs, vs)
    ensures EncodeZip(cs, vs).Ok?
    decreases cs, 0
  {
    if cs != [] {
      FaithfulEncodes(cs[0], vs[0]);
      FaithfulEncodesZip(cs[1..], vs[1..]);
    }
  }

  lemma {:induction false} FaithfulEncodesAll(item: Codec, vs: seq<Value>)
    requires FaithfulAll(item, vs)
    ensures EncodeAll(item, vs).Ok?
    decreases item, |vs| + 1
  {
    if vs != [] {
      FaithfulEncodes(item, vs[0]);
      FaithfulEncodesAll(item, vs[1..]);
    }
  }

  /** `c` writes `v` as exactly `e`. */
  predicate Writes(c: Codec, v: Value, e: seq<byte>)
  {
    Encode(c, v) == Ok(e)
  }

  /** `c` reads `v` at `pos` and stops at `p`. */
  predicate ReadsAs(c: Codec, s: seq<byte>, pos: nat, v: Value, p: nat)
  {
    pos <= |s| && Decode(c, s, pos) == Ok((v, p))
  }

  /** `item` writes the run `vs` as exactly `e`. */
  predicate WritesAll(item: Codec, vs: seq<Value>, e: seq<byte>)
  {
    EncodeAll(item, vs) == Ok(e)
  }

  /** `item` reads the run `vs`, one after another, from `pos` to `p`. */
  predicate ReadsAllAs(item: Codec, s: seq<byte>, pos: nat, vs: seq<Value>, p: nat)
  {
    pos <= |s| && DecodeN(item, |vs|, s, pos) == Ok((vs, p))
  }

  lemma UintRoundTrip(n: int, w: nat, s: seq<byte>, pos: nat)
    requires 0 <= n < Pow256(w)
    requires At(s, pos, ToBE(n, w))
    ensures Read(s, pos, w) == (ToBE(n, w), pos + w)
    ensures FromBE(Read(s, pos, w).0) == n
  {
    FromToBE(n, w);
  }

  lemma SizedRoundTrip(count: nat, content: seq<byte>, s: seq<byte>, pos: nat)
    requires 0 < count < Pow256(4) && |content| == count
    requires At(s, pos, ToBE(count, 4) + content)
    ensures DecodeSized(s, pos) == (content, pos + 4 + count)
  {
    AtSplit(s, pos, ToBE(count, 4), content);
    UintRoundTrip(count, 4, s, pos);
  }

  /** Round trip: decoding the encoding `e` of a faithful value, wherever it
      sits in the buffer, gives the value back and consumes exactly `e`. */
  lemma {:induction false} RoundTrip(c: Codec, v: Value, e: seq<byte>, s: seq<byte>, pos: nat)
    requires Faithful(c, v) && Writes(c, v, e)
    requires At(s, pos, e)
    ensures Decode(c, s, pos) == Ok((v, pos + |e|))
    decreases c, 3
  {
    match c
    case TupleC(cs) =>
      assert EncodeTuple(cs, v) == Ok(e);
      RoundTripTuple(cs, v, e, s, pos);
    case RepeatC(item, count) => RoundTripRepeat(item, count, v, e, s, pos);
    case UnionC(tag, vs) => RoundTripUnion(tag, vs, v, e, s, pos);
    case OneOfMappedC(key, es) => RoundTripMapped(key, es, v, e, s, pos);
    case ShortC | IntC | LongC => RoundTripFixed(c, v, e, s, pos);
    case BytesC => RoundTripBytes(v, e, s, pos);
    case StringC => RoundTripTextual(c, v.s, e, s, pos);
    case RecordC => RoundTripTextual(c, v.doc, e, s, pos);
    case BoolC | ByteC =>
  }

  lemma RoundTripFixed(c: Codec, v: Value, e: seq<byte>, s: seq<byte>, pos: nat)
    requires IsFixedWidth(c)
    requires v.IntV? && 0 <= v.i < Pow256(Width(c)) && EncodeInt(v, Width(c)) == Ok(e)
    requires At(s, pos, e)
    ensures DecodeFixed(c, s, pos) == Ok((v, pos + |e|))
  {
    UintRoundTrip(v.i, Width(c), s, pos);
  }

  lemma RoundTripBytes(v: Value, e: seq<byte>, s: seq<byte>, pos: nat)
    requires v.BytesV? && 0 < |v.bytes| < Pow256(4) && EncodeSized(|v.bytes|, v.bytes) == Ok(e)
    requires At(s, pos, e)
    ensures DecodeSized(s, pos) == (v.bytes, pos + |e|)
  {
    SizedRoundTrip(|v.bytes|, v.bytes, s, pos);
  }

  lemma RoundTripTextual(c: Codec, t: string, e: seq<byte>, s: seq<byte>, pos: nat)
    requires c.StringC? || c.RecordC?
    requires FaithfulText(t) && EncodeText(t) == Ok(e)
    requires At(s, pos, e)
    ensures DecodeTextual(c, s, pos) == Ok((if c.StringC? then StrV(t) else RecordV(t), pos + |e|))
  {
    var u := FaithfulTextBytes(t);
    SizedRoundTrip(|t|, u, s, pos);
    TextualOf(c, t, u, s, pos);
  }

  /** A faithful text is written as its length and bytes `u`, one per character,
      that decode back to it. */
  lemma FaithfulTextBytes(t: string) returns (u: seq<byte>)
    requires FaithfulText(t)
    ensures EncodeText(t) == Ok(ToBE(|t|, 4) + u)
    ensures |u| == |t| && Utf8.Decode(u) == Some(t)
  {
    u := Utf8.Encode(t);
    Utf8.AsciiLength(t);
    Utf8.AsciiRoundTrip(t);
  }

  lemma TextualOf(c: Codec, t: string, u: seq<byte>, s: seq<byte>, pos: nat)
    requires c.StringC? || c.RecordC?
    requires pos <= |s| && DecodeSized(s, pos) == (u, pos + 4 + |t|) && Utf8.Decode(u) == Some(t)
    ensures DecodeTextual(c, s, pos) == Ok((if c.StringC? then StrV(t) else RecordV(t), pos + 4 + |t|))
  {
  }

  lemma {:induction false} RoundTripTuple(cs: seq<Codec>, v: Value, e: seq<byte>, s: seq<byte>, pos: nat)
    requires v.TupleV? && FaithfulZip(cs, v.items) && EncodeZip(cs, v.items) == Ok(e)
    requires At(s, pos, e)
    ensures Decode(TupleC(cs), s, pos) == Ok((v, pos + |e|))
    decreases TupleC(cs), 1
  {
    RoundTripZip(cs, v.items, e, s, pos);
  }

  lemma {:induction false} RoundTripRepeat(item: Codec, count: Codec, v: Value, e: seq<byte>, s: seq<byte>, pos: nat)
    requires FaithfulRepeat(item, count, v) && EncodeRepeat(item, count, v) == Ok(e)
    requires At(s, pos, e)
    ensures DecodeRepeat(item, count, s, pos) == Ok((v, pos + |e|))
    decreases RepeatC(item, count), 2
  {
    var head, body := RepeatParts(item, count, v, e);
    AtSplit(s, pos, head, body);
    RoundTripCounted(item, count, v, head, body, s, pos, pos + |e|);
  }

  /** The count reads back first, then the items. */
  lemma {:induction false} RoundTripCounted(item: Codec, count: Codec, v: Value, head: seq<byte>, body: seq<byte>,
                                           s: seq<byte>, pos: nat, q: nat)
    requires v.ListV? && Faithful(count, IntV(|v.items|)) && FaithfulAll(item, v.items)
    requires Writes(count, IntV(|v.items|), head) && WritesAll(item, v.items, body)
    requires At(s, pos, head) && At(s, pos + |head|, body) && q == pos + |head| + |body|
    ensures DecodeRepeat(item, count, s, pos) == Ok((v, q))
    decreases RepeatC(item, count), 1
  {
    RoundTrip(count, IntV(|v.items|), head, s, pos);
    RoundTripItems(item, count, v, body, s, pos, pos + |head|, q);
  }

  /** Once the count has been read back, the items that follow it are too. */
  lemma {:induction false} RoundTripItems(item: Codec, count: Codec, v: Value, body: seq<byte>,
                                         s: seq<byte>, pos: nat, p: nat, q: nat)
    requires v.ListV? && p <= |s| && ReadsAs(count, s, pos, IntV(|v.items|), p)
    requires FaithfulAll(item, v.items) && WritesAll(item, v.items, body)
    requires At(s, p, body) && q == p + |body|
    ensures DecodeRepeat(item, count, s, pos) == Ok((v, q))
    decreases RepeatC(item, count), 0
  {
    RoundTripAll(item, v.items, body, s, p);
    DecodeCounted(item, count, s, pos, v, p, p + |body|);
  }

  /** A list is written as its length, then its items. */
  lemma RepeatParts(item: Codec, count: Codec, v: Value, e: seq<byte>) returns (head: seq<byte>, body: seq<byte>)
    requires FaithfulRepeat(item, count, v) && EncodeRepeat(item, count, v) == Ok(e)
    ensures v.ListV? && Faithful(count, IntV(|v.items|)) && FaithfulAll(item, v.items)
    ensures Writes(count, IntV(|v.items|), head) && WritesAll(item, v.items, body)
    ensures e == head + body
  {
    FaithfulEncodes(count, IntV(|v.items|));
    FaithfulEncodesAll(item, v.items);
    head := Encode(count, IntV(|v.items|)).value;
    body := EncodeAll(item, v.items).value;
  }

  /** A list is read as its count, then that many items. */
  lemma DecodeCounted(item: Codec, count: Codec, s: seq<byte>, pos: nat, v: Value, p: nat, p2: nat)
    requires v.ListV? && p <= |s| && ReadsAs(count, s, pos, IntV(|v.items|), p)
    requires ReadsAllAs(item, s, p, v.items, p2)
    ensures DecodeRepeat(item, count, s, pos) == Ok((v, p2))
  {
  }

  lemma {:induction false} RoundTripUnion(tag: Codec, vs: seq<Codec>, v: Value, e: seq<byte>, s: seq<byte>, pos: nat)
    requires FaithfulUnion(tag, vs, v) && EncodeUnion(tag, vs, v) == Ok(e)
    requires At(s, pos, e)
    ensures DecodeUnion(tag, vs, s, pos) == Ok((v, pos + |e|))
    decreases UnionC(tag, vs), 2
  {
    var i, head, body := UnionParts(tag, vs, v, e);
    AtSplit(s, pos, head, body);
    RoundTripTagged(tag, vs, v, i, head, body, s, pos, pos + |e|);
  }

  /** The tag reads back first, then the variant it picks. */
  lemma {:induction false} RoundTripTagged(tag: Codec, vs: seq<Codec>, v: Value, i: nat,
                                          head: seq<byte>, body: seq<byte>, s: seq<byte>, pos: nat, q: nat)
    requires i < |vs| && Faithful(tag, IntV(i)) && Faithful(vs[i], v)
    requires Writes(tag, IntV(i), head) && Writes(vs[i], v, body)
    requires At(s, pos, head) && At(s, pos + |head|, body) && q == pos + |head| + |body|
    ensures DecodeUnion(tag, vs, s, pos) == Ok((v, q))
    decreases UnionC(tag, vs), 1
  {
    RoundTrip(tag, IntV(i), head, s, pos);
    RoundTripChosen(tag, vs, v, i, body, s, pos, pos + |head|, q);
  }

  /** Once the tag has been read back, the value in the variant follows. */
  lemma {:induction false} RoundTripChosen(tag: Codec, vs: seq<Codec>, v: Value, i: nat, body: seq<byte>,
                                          s: seq<byte>, pos: nat, p: nat, q: nat)
    requires p <= |s| && i < |vs| && ReadsAs(tag, s, pos, IntV(i), p)
    requires Faithful(vs[i], v) && Writes(vs[i], v, body)
    requires At(s, p, body) && q == p + |body|
    ensures DecodeUnion(tag, vs, s, pos) == Ok((v, q))
    decreases UnionC(tag, vs), 0
  {
    RoundTrip(vs[i], v, body, s, p);
    DecodeTagged(tag, vs, s, pos, i, p, v, q);
  }

  /** A union writes the tag of the variant it picks, then the value in it. */
  lemma UnionParts(tag: Codec, vs: seq<Codec>, v: Value, e: seq<byte>) returns (i: nat, head: seq<byte>, body: seq<byte>)
    requires FaithfulUnion(tag, vs, v) && EncodeUnion(tag, vs, v) == Ok(e)
    ensures i < |vs| && Faithful(tag, IntV(i)) && Faithful(vs[i], v)
    ensures Writes(tag, IntV(i), head) && Writes(vs[i], v, body)
    ensures e == head + body
  {
    i := FirstMatch(vs, v).value;
    FaithfulConverts(vs[i], v);
    FaithfulEncodes(tag, IntV(i));
    FaithfulEncodes(vs[i], v);
    head := Encode(tag, IntV(i)).value;
    body := Encode(vs[i], v).value;
  }

  /** A union reads the tag, then the variant it indexes. */
  lemma DecodeTagged(tag: Codec, vs: seq<Codec>, s: seq<byte>, pos: nat, i: nat, p: nat, v: Value, q: nat)
    requires i < |vs| && ReadsAs(tag, s, pos, IntV(i), p) && ReadsAs(vs[i], s, p, v, q)
    ensures DecodeUnion(tag, vs, s, pos) == Ok((v, q))
  {
  }

  lemma {:induction false} RoundTripMapped(key: Codec, es: seq<(Value, Codec)>, v: Value, e: seq<byte>, s: seq<byte>, pos: nat)
    requires FaithfulMapped(key, es, v) && EncodeMapped(key, es, v) == Ok(e)
    requires At(s, pos, e)
    ensures DecodeMapped(key, es, s, pos) == Ok((v, pos + |e|))
    decreases OneOfMappedC(key, es), 2
  {
    var i, head, body := MappedParts(key, es, v, e);
    AtSplit(s, pos, head, body);
    RoundTripKeyed(key, es, v, i, head, body, s, pos, pos + |e|);
  }

  /** The key reads back first, then the value under the codec it maps to. */
  lemma {:induction false} RoundTripKeyed(key: Codec, es: seq<(Value, Codec)>, v: Value, i: nat,
                                         head: seq<byte>, body: seq<byte>, s: seq<byte>, pos: nat, q: nat)
    requires i < |es| && Lookup(es, es[i].0) == Some(i) && Faithful(key, es[i].0) && Faithful(es[i].1, v)
    requires Writes(key, es[i].0, head) && Writes(es[i].1, v, body)
    requires At(s, pos, head) && At(s, pos + |head|, body) && q == pos + |head| + |body|
    ensures DecodeMapped(key, es, s, pos) == Ok((v, q))
    decreases OneOfMappedC(key, es), 1
  {
    RoundTrip(key, es[i].0, head, s, pos);
    RoundTripEntry(key, es, v, i, body, s, pos, pos + |head|, q);
  }

  /** Once the key has been read back, the value under its entry follows. */
  lemma {:induction false} RoundTripEntry(key: Codec, es: seq<(Value, Codec)>, v: Value, i: nat, body: seq<byte>,
                                         s: seq<byte>, pos: nat, p: nat, q: nat)
    requires p <= |s| && i < |es| && Lookup(es, es[i].0) == Some(i)
    requires ReadsAs(key, s, pos, es[i].0, p)
    requires Faithful(es[i].1, v) && Writes(es[i].1, v, body)
    requires At(s, p, body) && q == p + |body|
    ensures DecodeMapped(key, es, s, pos) == Ok((v, q))
    decreases OneOfMappedC(key, es), 0
  {
    RoundTrip(es[i].1, v, body, s, p);
    DecodeKeyed(key, es, s, pos, i, p, v, q);
  }

  /** A mapped union writes the key of the entry it picks, then the value. */
  lemma MappedParts(key: Codec, es: seq<(Value, Codec)>, v: Value, e: seq<byte>) returns (i: nat, head: seq<byte>, body: seq<byte>)
    requires FaithfulMapped(key, es, v) && EncodeMapped(key, es, v) == Ok(e)
    ensures i < |es| && Lookup(es, es[i].0) == Some(i) && Faithful(key, es[i].0) && Faithful(es[i].1, v)
    ensures Writes(key, es[i].0, head) && Writes(es[i].1, v, body)
    ensures e == head + body
  {
    i := FirstMatch(Codecs(es), v).value;
    FaithfulConverts(es[i].1, v);
    FaithfulEncodes(key, es[i].0);
    FaithfulEncodes(es[i].1, v);
    head := Encode(key, es[i].0).value;
    body := Encode(es[i].1, v).value;
  }

  /** A mapped union reads the key, then the codec the key maps to. */
  lemma DecodeKeyed(key: Codec, es: seq<(Value, Codec)>, s: seq<byte>, pos: nat, i: nat, p: nat, v: Value, q: nat)
    requires i < |es| && Lookup(es, es[i].0) == Some(i)
    requires ReadsAs(key, s, pos, es[i].0, p) && ReadsAs(es[i].1, s, p, v, q)
    ensures DecodeMapped(key, es, s, pos) == Ok((v, q))
  {
  }

  lemma {:induction false} RoundTripZip(cs: seq<Codec>, vs: seq<Value>, e: seq<byte>, s: seq<byte>, pos: nat)
    requires FaithfulZip(cs, vs) && EncodeZip(cs, vs) == Ok(e)
    requires At(s, pos, e)
    ensures DecodeZip(cs, s, pos) == Ok((vs, pos + |e|))
    decreases cs, 0
  {
    if cs != [] {
      FaithfulEncodes(cs[0], vs[0]);
      FaithfulEncodesZip(cs[1..], vs[1..]);
      var head := Encode(cs[0], vs[0]).value;
      var tail := EncodeZip(cs[1..], vs[1..]).value;
      AtSplit(s, pos, head, tail);
      RoundTrip(cs[0], vs[0], head, s, pos);
      RoundTripZip(cs[1..], vs[1..], tail, s, pos + |head|);
      assert [vs[0]] + vs[1..] == vs;
    }
  }

  lemma {:induction false} RoundTripAll(item: Codec, vs: seq<Value>, e: seq<byte>, s: seq<byte>, pos: nat)
    requires FaithfulAll(item, vs) && WritesAll(item, vs, e)
    requires At(s, pos, e)
    ensures ReadsAllAs(item, s, pos, vs, pos + |e|)
    decreases item, 2 * |vs| + 3
  {
    if vs != [] {
      RoundTripCons(item, vs, e, s, pos);
    }
  }

  /** The first of a run of items reads back, then the rest after it. */
  lemma {:induction false} RoundTripCons(item: Codec, vs: seq<Value>, e: seq<byte>, s: seq<byte>, pos: nat)
    requires vs != [] && FaithfulAll(item, vs) && WritesAll(item, vs, e)
    requires At(s, pos, e)
    ensures ReadsAllAs(item, s, pos, vs, pos + |e|)
    decreases item, 2 * |vs| + 2
  {
    var head, tail := AllParts(item, vs, e);
    AtSplit(s, pos, head, tail);
    RoundTrip(item, vs[0], head, s, pos);
    RoundTripAll(item, vs[1..], tail, s, pos + |head|);
    DecodeNCons(item, vs, s, pos, pos + |head|, pos + |e|);
  }

  /** A non-empty run of items is the first item, then the rest. */
  lemma AllParts(item: Codec, vs: seq<Value>, e: seq<byte>) returns (head: seq<byte>, tail: seq<byte>)
    requires vs != [] && FaithfulAll(item, vs) && WritesAll(item, vs, e)
    ensures Faithful(item, vs[0]) && FaithfulAll(item, vs[1..])
    ensures Writes(item, vs[0], head) && WritesAll(item, vs[1..], tail) && e == head + tail
  {
    FaithfulEncodes(item, vs[0]);
    FaithfulEncodesAll(item, vs[1..]);
    head := Encode(item, vs[0]).value;
    tail := EncodeAll(item, vs[1..]).value;
  }

  /** Reading `n` items is reading one, then `n - 1`. */
  lemma DecodeNCons(item: Codec, vs: seq<Value>, s: seq<byte>, pos: nat, p: nat, p2: nat)
    requires vs != [] && p <= |s| && ReadsAs(item, s, pos, vs[0], p)
    requires ReadsAllAs(item, s, p, vs[1..], p2)
    ensures ReadsAllAs(item, s, pos, vs, p2)
  {
    assert [vs[0]] + vs[1..] == vs;
  }
}
