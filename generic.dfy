/** Packets, the registry that numbers packet classes, and the frames packets
    travel in: `u32 length | u16 id | fields`. */
module Generic {
  import opened Wire
  import opened IoTypes

  /** A packet class: its `PACKET_NAME` and its fields' codecs in declaration
      order. */
  datatype PacketKind = PacketKind(name: string, fields: seq<Codec>)

  /** A packet: its class and its field values, in declaration order. */
  datatype Packet = Packet(kind: PacketKind, values: seq<Value>)

  /** A converted value converts to itself. */
  lemma ConvertIdempotent(c: Codec, v: Value)
    requires Convert(c, v).Ok?
    ensures Convert(c, Convert(c, v).value) == Convert(c, v)
  {
  }

  function ConvertAll(cs: seq<Codec>, vs: seq<Value>): (r: Result<seq<Value>>)
    requires |cs| == |vs|
    ensures r.Ok? ==> |r.value| == |vs|
  {
    if cs == [] then Ok([])
    else
      match Convert(cs[0], vs[0])
      case Err(e) => Err(e)
      case Ok(v) =>
        match ConvertAll(cs[1..], vs[1..])
        case Err(e) => Err(e)
        case Ok(rest) => Ok([v] + rest)
  }

  /** `GamePacket.__init__`: one argument per field, or "Argument Amount
      Mismatch"; each argument converted to its field's type, in order. */
  function NewPacket(kind: PacketKind, args: seq<Value>): (r: Result<Packet>)
    ensures |args| != |kind.fields| ==> r == Err(ArgumentMismatch)
    ensures r.Ok? ==> r.value.kind == kind && |r.value.values| == |args|
  {
    if |args| != |kind.fields| then Err(ArgumentMismatch)
    else
      match ConvertAll(kind.fields, args)
      case Err(e) => Err(e)
      case Ok(vs) => Ok(Packet(kind, vs))
  }

  /** A packet is built exactly when every argument converts, and then each
      field holds its converted argument. */
  lemma {:induction false} ConvertAllSpec(cs: seq<Codec>, vs: seq<Value>)
    requires |cs| == |vs|
    ensures ConvertAll(cs, vs).Ok? <==> forall i :: 0 <= i < |cs| ==> Convert(cs[i], vs[i]).Ok?
    ensures ConvertAll(cs, vs).Ok? ==>
              forall i :: 0 <= i < |cs| ==> ConvertAll(cs, vs).value[i] == Convert(cs[i], vs[i]).value
  {
    if cs != [] {
      ConvertAllSpec(cs[1..], vs[1..]);
      assert forall i :: 1 <= i < |cs| ==> cs[i] == cs[1..][i - 1] && vs[i] == vs[1..][i - 1];
    }
  }

  /** Rebuilding a packet from its own field values gives the same packet: what
      `from_cr_buffer` does with values that were converted once already. */
  lemma {:induction false} ConvertAllIdempotent(cs: seq<Codec>, vs: seq<Value>)
    requires |cs| == |vs| && ConvertAll(cs, vs).Ok?
    ensures ConvertAll(cs, ConvertAll(cs, vs).value) == ConvertAll(cs, vs)
  {
    if cs != [] {
      var w := ConvertAll(cs, vs).value;
      ConvertIdempotent(cs[0], vs[0]);
      ConvertAllIdempotent(cs[1..], vs[1..]);
      assert w[1..] == ConvertAll(cs[1..], vs[1..]).value;
    }
  }

  /** Arguments that already have their fields' types are kept as they are. */
  lemma NewPacketKeeps(kind: PacketKind, args: seq<Value>)
    requires |args| == |kind.fields|
    requires forall i :: 0 <= i < |args| ==> Convert(kind.fields[i], args[i]) == Ok(args[i])
    ensures NewPacket(kind, args) == Ok(Packet(kind, args))
  {
    ConvertAllSpec(kind.fields, args);
    assert ConvertAll(kind.fields, args).value == args;
  }

  lemma NewPacketIdempotent(kind: PacketKind, args: seq<Value>)
    requires NewPacket(kind, args).Ok?
    ensures NewPacket(kind, NewPacket(kind, args).value.values) == NewPacket(kind, args)
  {
    ConvertAllIdempotent(kind.fields, args);
  }

  /** `GamePacket.to_cr_bytes`: the fields, each in its codec, in declaration
      order. */
  function Body(p: Packet): Result<seq<byte>>
  {
    EncodeZip(p.kind.fields, p.values)
  }

  /** The registry's two dictionaries, and the insertion order of the first. */
  datatype RegState = RegState(order: seq<int>, packets: map<int, PacketKind>, ids: map<string, int>)

  /** `order` lists the keys of `packets`, each once, as a dictionary keeps them. */
  ghost predicate ValidState(st: RegState)
  {
    (forall i, j :: 0 <= i < j < |st.order| ==> st.order[i] != st.order[j]) &&
    (forall i :: 0 <= i < |st.order| ==> st.order[i] in st.packets) &&
    (forall id :: id in st.packets ==> id in st.order)
  }

  /** `packet_id or (len(self._packets) + 1)`: no id, or the id 0, takes one
      more than the number of registered ids. */
  function AssignedId(st: RegState, id: Option<int>): (r: int)
    ensures r != 0
    ensures id.None? || id == Some(0) ==> r == |st.packets| + 1
    ensures id.Some? && id.value != 0 ==> r == id.value
  {
    if id.None? || id.value == 0 then |st.packets| + 1 else id.value
  }

  /** `register`: the id now names the class and the class's name now names
      the id; an existing entry is overwritten, nothing is removed. */
  function Registered(st: RegState, p: PacketKind, id: Option<int>): (r: RegState)
    ensures p.name in r.ids && r.ids[p.name] == AssignedId(st, id)
    ensures AssignedId(st, id) in r.packets && r.packets[AssignedId(st, id)] == p
    ensures st.packets.Keys <= r.packets.Keys && st.ids.Keys <= r.ids.Keys
  {
    var a := AssignedId(st, id);
    RegState(if a in st.packets then st.order else st.order + [a], st.packets[a := p], st.ids[p.name := a])
  }

  /** `get_packet_by_id`. */
  function KindOf(st: RegState, id: int): (r: Result<PacketKind>)
    ensures r.Ok? <==> id in st.packets
    ensures r.Ok? ==> r.value == st.packets[id]
    ensures r.Err? ==> r.error == KeyError
  {
    if id in st.packets then Ok(st.packets[id]) else Err(KeyError)
  }

  /** `get_id_by_packet`, by the packet's name. */
  function IdOf(st: RegState, name: string): (r: Result<int>)
    ensures r.Ok? <==> name in st.ids
    ensures r.Ok? ==> r.value == st.ids[name]
    ensures r.Err? ==> r.error == KeyError
  {
    if name in st.ids then Ok(st.ids[name]) else Err(KeyError)
  }

  /** After `register`, the lookups answer for the new entry and as before for
      every other id and name. */
  lemma RegisterLookups(st: RegState, p: PacketKind, id: Option<int>)
    ensures forall k :: KindOf(Registered(st, p, id), k) ==
                          if k == AssignedId(st, id) then Ok(p) else KindOf(st, k)
    ensures forall n :: IdOf(Registered(st, p, id), n) ==
                          if n == p.name then Ok(AssignedId(st, id)) else IdOf(st, n)
  {
  }

  /** `register` keeps the insertion order consistent: a new id goes last, an
      overwritten one keeps its place. */
  lemma RegisterKeepsOrder(st: RegState, p: PacketKind, id: Option<int>)
    requires ValidState(st)
    ensures ValidState(Registered(st, p, id))
    ensures Registered(st, p, id).order ==
              if AssignedId(st, id) in st.packets then st.order else st.order + [AssignedId(st, id)]
  {
  }

  /** `serialize_cr_packet`: the id of the packet's name in two big-endian
      bytes, then the packet's fields. */
  function SerializeCr(st: RegState, p: Packet): (r: Result<seq<byte>>)
    ensures p.kind.name !in st.ids ==> r == Err(KeyError)
    ensures r.Ok? ==> p.kind.name in st.ids && 2 <= |r.value| &&
                      FromBE(r.value[..2]) == st.ids[p.kind.name] && Body(p) == Ok(r.value[2..])
  {
    match IdOf(st, p.kind.name)
    case Err(e) => Err(e)
    case Ok(id) =>
      match EncodeUint(id, 2)
      case Err(e) => Err(e)
      case Ok(head) =>
        match Body(p)
        case Err(e) => Err(e)
        case Ok(body) =>
          assert (head + body)[..2] == head && (head + body)[2..] == body;
          Ok(head + body)
  }

  /** `serialize_packet`: the length of what follows in four big-endian bytes,
      then the packet. */
  function Serialize(st: RegState, p: Packet): (r: Result<seq<byte>>)
    ensures r.Ok? ==> 6 <= |r.value| && FromBE(r.value[..4]) == |r.value| - 4 &&
                      SerializeCr(st, p) == Ok(r.value[4..])
    ensures SerializeCr(st, p).Err? ==> r == SerializeCr(st, p)
  {
    match SerializeCr(st, p)
    case Err(e) => Err(e)
    case Ok(cr) =>
      match EncodeUint(|cr|, 4)
      case Err(e) => Err(e)
      case Ok(len) =>
        assert (len + cr)[..4] == len && (len + cr)[4..] == cr;
        Ok(len + cr)
  }

  /** `deserialize_cr_packet` on a buffer at `pos`: the id, its class, the
      fields in order, and the class's constructor on them. */
  function DeserializeCr(st: RegState, s: seq<byte>, pos: nat): (r: Result<(Packet, nat)>)
    requires pos <= |s|
    ensures r.Ok? ==> pos <= r.value.1 <= |s|
  {
    var (b, p) := Read(s, pos, 2);
    match KindOf(st, FromBE(b))
    case Err(e) => Err(e)
    case Ok(kind) =>
      match DecodeZip(kind.fields, s, p)
      case Err(e) => Err(e)
      case Ok((vs, p2)) =>
        match NewPacket(kind, vs)
        case Err(e) => Err(e)
        case Ok(pk) => Ok((pk, p2))
  }

  /** `deserialize_packet` on a stream at `pos`: the declared length, the frame
      of that many bytes (or what is left), and the packet read from the frame
      alone. The stream advances past the frame whether or not reading it
      raises. */
  function Deserialize(st: RegState, s: seq<byte>, pos: nat): (r: (Result<Packet>, nat))
    requires pos <= |s|
    ensures pos <= r.1 <= |s|
    ensures pos < |s| ==> pos < r.1
    ensures pos + 4 <= |s| ==> r.1 <= pos + 4 + FromBE(s[pos..pos + 4])
  {
    var (lb, p) := Read(s, pos, 4);
    var (frame, next) := Read(s, p, FromBE(lb));
    var r :=
      match DeserializeCr(st, frame, 0)
      case Err(e) => Err(e)
      case Ok((pk, used)) => if used < |frame| then Err(Leftovers) else Ok(pk);
    (r, next)
  }

  /** A packet is read only when its fields use up the whole frame: a byte
      left over raises. */
  lemma DeserializeStrict(st: RegState, s: seq<byte>, pos: nat)
    requires pos <= |s|
    ensures var (lb, p) := Read(s, pos, 4);
            var (frame, _) := Read(s, p, FromBE(lb));
            (Deserialize(st, s, pos).0.Ok? <==>
               DeserializeCr(st, frame, 0).Ok? && DeserializeCr(st, frame, 0).value.1 == |frame|) &&
            (Deserialize(st, s, pos).0.Ok? ==> Deserialize(st, s, pos).0.value == DeserializeCr(st, frame, 0).value.0)
  {
  }

  /** Framing round trip: a packet written with a registry in which its name's
      id maps back to its class, and whose fields carry their values
      faithfully, is read back from wherever its frame sits in the stream, and
      the stream advances past exactly that frame. */
  lemma FrameRoundTrip(st: RegState, p: Packet, frame: seq<byte>, s: seq<byte>, pos: nat)
    requires Serialize(st, p) == Ok(frame)
    requires p.kind.name in st.ids && KindOf(st, st.ids[p.kind.name]) == Ok(p.kind)
    requires FaithfulZip(p.kind.fields, p.values) && NewPacket(p.kind, p.values) == Ok(p)
    requires At(s, pos, frame)
    ensures Deserialize(st, s, pos) == (Ok(p), pos + |frame|)
  {
    var cr, body := FrameParts(st, p, frame);
    var id := st.ids[p.kind.name];
    AtSplit(s, pos, ToBE(|cr|, 4), cr);
    UintRoundTrip(|cr|, 4, s, pos);
    assert Read(s, pos + 4, |cr|) == (cr, pos + 4 + |cr|);
    CrRoundTrip(st, p, id, body, cr);
  }

  /** A frame is its length, then the packet's id, then its fields. */
  lemma FrameParts(st: RegState, p: Packet, frame: seq<byte>) returns (cr: seq<byte>, body: seq<byte>)
    requires Serialize(st, p) == Ok(frame)
    ensures p.kind.name in st.ids && st.ids[p.kind.name] < Pow256(2) && |cr| < Pow256(4)
    ensures frame == ToBE(|cr|, 4) + cr && cr == ToBE(st.ids[p.kind.name], 2) + body
    ensures Body(p) == Ok(body)
  {
    cr := frame[4..];
    body := cr[2..];
    ToFromBE(frame[..4]);
    assert frame == frame[..4] + cr;
    ToFromBE(cr[..2]);
    assert cr == cr[..2] + body;
  }

  /** The packet part of a frame reads back as the packet and is used up. */
  lemma CrRoundTrip(st: RegState, p: Packet, id: nat, body: seq<byte>, cr: seq<byte>)
    requires id < Pow256(2) && KindOf(st, id) == Ok(p.kind)
    requires cr == ToBE(id, 2) + body && Body(p) == Ok(body)
    requires FaithfulZip(p.kind.fields, p.values) && NewPacket(p.kind, p.values) == Ok(p)
    ensures DeserializeCr(st, cr, 0) == Ok((p, |cr|))
  {
    AtSplit(cr, 0, ToBE(id, 2), body);
    UintRoundTrip(id, 2, cr, 0);
    RoundTripZip(p.kind.fields, p.values, body, cr, 2);
  }

  /** The registry. In the program its two dictionaries are class-level,
      created once when the module loads, so every `GamePacketRegistry()`
      shares the same, possibly already filled, maps. Here the constructor
      stands for that one creation at load time: a second `new
      GamePacketRegistry()` gives an independent, empty object, and the
      sharing is modelled by passing this one object to every user. */
  class GamePacketRegistry {
    var order: seq<int>
    var packets: map<int, PacketKind>
    var ids: map<string, int>

    function State(): RegState
      reads this
    {
      RegState(order, packets, ids)
    }

    ghost predicate Valid()
      reads this
    {
      ValidState(State())
    }

    constructor ()
      ensures Valid() && State() == RegState([], map[], map[])
    {
      order := [];
      packets := map[];
      ids := map[];
    }

    method Register(p: PacketKind, id: Option<int>)
      requires Valid()
      modifies this
      ensures Valid()
      ensures State() == Registered(old(State()), p, id)
    {
      RegisterKeepsOrder(State(), p, id);
      var a := if id.None? || id.value == 0 then |packets| + 1 else id.value;
      if a !in packets {
        order := order + [a];
      }
      packets := packets[a := p];
      ids := ids[p.name := a];
    }

    method GetPacketById(id: int) returns (r: Result<PacketKind>)
      ensures r.Ok? <==> id in packets
      ensures r.Ok? ==> r.value == packets[id]
      ensures r.Err? ==> r.error == KeyError
    {
      r := if id in packets then Ok(packets[id]) else Err(KeyError);
    }

    method GetIdByPacket(p: PacketKind) returns (r: Result<int>)
      ensures r.Ok? <==> p.name in ids
      ensures r.Ok? ==> r.value == ids[p.name]
      ensures r.Err? ==> r.error == KeyError
    {
      r := if p.name in ids then Ok(ids[p.name]) else Err(KeyError);
    }
  }
}
