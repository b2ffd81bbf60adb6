/** The packet classes the client handles, and `ProtocolSyncPacket.create`,
    which lists the registry as (name, id) pairs. */
module Packets {
  import opened Wire
  import opened IoTypes
  import opened Generic
  import Utf8
  import Accounts
  import opened CodecLaws

  const SyncName: string := "finalforeach.cosmicreach.networking.packets.meta.ProtocolSyncPacket"

  /** One entry of the sync list: a name and an id. */
  const SyncEntry: Codec := TupleC([StringC, IntC])

  /** `ProtocolSyncPacket`: `packets: Repeat(Tuple(String, Int), Int)`,
      `game_version: String`. */
  const ProtocolSync: PacketKind := PacketKind(SyncName, [RepeatC(SyncEntry, IntC), StringC])

  /** `TransactionPacket`: `id: Long`. */
  const Transaction: PacketKind :=
    PacketKind("finalforeach.cosmicreach.networking.packets.meta.TransactionPacket", [LongC])

  /** An account on the wire: `OneOfMapped(String, {"offline": OfflineAccount})`. */
  const AccountField: Codec := OneOfMappedC(StringC, [(StrV("offline"), RecordC)])

  /** `LoginPacket`: `account`. */
  const Login: PacketKind :=
    PacketKind("finalforeach.cosmicreach.networking.packets.meta.LoginPacket", [AccountField])

  /** `SetNetworkSetting`: `key: String`, `value: Bool | Int`. */
  const SetNetworkSetting: PacketKind :=
    PacketKind("finalforeach.cosmicreach.networking.packets.meta.SetNetworkSetting", [StringC, Or(BoolC, IntC)])

  /** `MessagePacket`: `message: String`, `player_unique_id: String`. */
  const Message: PacketKind :=
    PacketKind("finalforeach.cosmicreach.networking.packets.MessagePacket", [StringC, StringC])

  /** `PlayerSkinPacket`: `player_unique_id: String`, `skin: Bytes`. */
  const PlayerSkin: PacketKind :=
    PacketKind("finalforeach.cosmicreach.networking.packets.entities.PlayerSkinPacket", [StringC, BytesC])

  /** `PlayerPacket`: `account`, `player` (a JSON document), `just_joined: Bool`. */
  const PlayerKind: PacketKind :=
    PacketKind("finalforeach.cosmicreach.networking.packets.entities.PlayerPacket", [AccountField, RecordC, BoolC])

  /** The value an account object stands for in an account field: the JSON
      document of `OfflineAccount(account)`, the copy the mapped field's
      `typ(self)` makes before writing it. The copy's username is the account
      type and the display name, whatever the account's own username is. */
  function AccountValue(a: Accounts.Account): Value
  {
    RecordV(Accounts.Document(Accounts.Copied(a)))
  }

  /** The document an account field carries names the account type and the
      display name as username, and the account's own unique id; for a
      consistent account that is the account's own document. */
  lemma AccountDocument(a: Accounts.Account)
    ensures AccountValue(a) ==
              RecordV(Accounts.Dumps([("username", Accounts.JStr("offline:" + a.displayName)), ("uniqueId", a.uniqueId)]))
    ensures Accounts.Consistent(a) ==> AccountValue(a) == RecordV(Accounts.Document(a))
  {
    Accounts.CopiedFixed(a);
  }

  function Entry(name: string, id: int): Value
  {
    TupleV([StrV(name), IntV(id)])
  }

  /** `(packet.PACKET_NAME, packet_id)` for each id, in the given order. */
  function EntriesOf(packets: map<int, PacketKind>, ids: seq<int>): (r: seq<Value>)
    requires forall i :: 0 <= i < |ids| ==> ids[i] in packets
    ensures |r| == |ids|
  {
    if ids == [] then [] else [Entry(packets[ids[0]].name, ids[0])] + EntriesOf(packets, ids[1..])
  }

  lemma {:induction false} EntriesAt(packets: map<int, PacketKind>, ids: seq<int>, i: nat)
    requires forall i :: 0 <= i < |ids| ==> ids[i] in packets
    requires i < |ids|
    ensures EntriesOf(packets, ids)[i] == Entry(packets[ids[i]].name, ids[i])
  {
    if i > 0 {
      EntriesAt(packets, ids[1..], i - 1);
    }
  }

  /** `ProtocolSyncPacket.create(registry, version)`: one (name, id) pair per
      registered id, in the registry's insertion order, and the version; the
      packet is what the class's constructor builds from those arguments. */
  function Create(st: RegState, version: string): (r: Packet)
    requires ValidState(st)
    ensures r.kind == ProtocolSync && |r.values| == 2
    ensures r.values[0].ListV? && |r.values[0].items| == |st.order| && r.values[1] == StrV(version)
  {
    Packet(ProtocolSync, [ListV(EntriesOf(st.packets, st.order)), StrV(version)])
  }

  /** The packet is what `ProtocolSyncPacket`'s constructor builds from the
      entry list and the version. */
  lemma CreateBuilt(st: RegState, version: string)
    requires ValidState(st)
    ensures NewPacket(ProtocolSync, [ListV(EntriesOf(st.packets, st.order)), StrV(version)]) == Ok(Create(st, version))
  {
    NewPacketKeeps(ProtocolSync, [ListV(EntriesOf(st.packets, st.order)), StrV(version)]);
  }

  /** Entry `i` of the created packet names the class registered at the
      `i`-th id and carries that id. */
  lemma CreateEntries(st: RegState, version: string, i: nat)
    requires ValidState(st) && i < |st.order|
    ensures Create(st, version).values[0].items[i] == Entry(st.packets[st.order[i]].name, st.order[i])
  {
    EntriesAt(st.packets, st.order, i);
  }

  /** The constructor makes a list of any iterable: a `str` given for the
      entry list becomes the list of its characters. */
  lemma SyncOfString()
    ensures NewPacket(ProtocolSync, [StrV("ab"), StrV("0.4.1")]) ==
            Ok(Packet(ProtocolSync, [ListV([StrV("a"), StrV("b")]), StrV("0.4.1")]))
  {
    var cs := ProtocolSync.fields;
    var args := [StrV("ab"), StrV("0.4.1")];
    var entries := ListV([StrV("a"), StrV("b")]);
    assert Chars("ab") == [StrV("a"), StrV("b")];
    assert Convert(cs[0], args[0]) == Ok(entries);
    assert cs[1..] == [StringC] && args[1..] == [StrV("0.4.1")];
    assert ConvertAll([StringC], [StrV("0.4.1")]) == Ok([StrV("0.4.1")]) by {
      assert [StringC][1..] == [] && [StrV("0.4.1")][1..] == [];
      assert Convert(StringC, StrV("0.4.1")) == Ok(StrV("0.4.1"));
      assert ConvertAll([], []) == Ok([]);
      assert [StrV("0.4.1")] + [] == [StrV("0.4.1")];
    }
    assert ConvertAll(cs, args) == Ok([entries] + [StrV("0.4.1")]);
    assert [entries] + [StrV("0.4.1")] == [entries, StrV("0.4.1")];
  }

  /** An entry that is an empty `str` zips with `(String, Int)` to nothing. */
  lemma EmptyEntryBytes()
    ensures Encode(SyncEntry, StrV("")) == Ok([])
  {
    assert Elements(StrV("")) == Some([]);
    assert EncodeZip([StringC, IntC], []) == Ok([]);
    assert EncodeTuple([StringC, IntC], StrV("")) == Ok([]);
    assert Encode(SyncEntry, StrV("")) == EncodeTuple([StringC, IntC], StrV(""));
  }

  /** A list holding one such entry is its count and nothing else. */
  lemma EmptyEntryListBytes()
    ensures Encode(RepeatC(SyncEntry, IntC), ListV([StrV("")])) == Ok(ToBE(1, 4))
  {
    var items := [StrV("")];
    EmptyEntryBytes();
    assert EncodeAll(SyncEntry, items) == Ok([]) by {
      assert items[0] == StrV("") && items[1..] == [];
      assert EncodeAll(SyncEntry, items[1..]) == Ok([]);
      var none: seq<byte> := [];
      assert none + none == none;
    }
    assert Elements(ListV(items)) == Some(items) && |items| == 1;
    assert Encode(IntC, IntV(1)) == Ok(ToBE(1, 4));
    assert ToBE(1, 4) + [] == ToBE(1, 4);
    assert EncodeRepeat(SyncEntry, IntC, ListV(items)) == Ok(ToBE(1, 4));
    assert Encode(RepeatC(SyncEntry, IntC), ListV(items)) == EncodeRepeat(SyncEntry, IntC, ListV(items));
  }

  /** An entry that is an empty `str`: the list counts it, but no byte is
      written for it. */
  lemma SyncOfEmptyEntry()
    ensures Body(Packet(ProtocolSync, [ListV([StrV("")]), StrV("0.4.1")])) ==
            Ok(ToBE(1, 4) + ToBE(5, 4) + Utf8.Encode("0.4.1"))
  {
    var cs := ProtocolSync.fields;
    var vs := [ListV([StrV("")]), StrV("0.4.1")];
    EmptyEntryListBytes();
    assert Encode(cs[1], vs[1]) == Ok(ToBE(5, 4) + Utf8.Encode("0.4.1"));
    assert EncodeZip(cs[1..], vs[1..]) == Ok(ToBE(5, 4) + Utf8.Encode("0.4.1") + []) by {
      assert cs[1..][1..] == [] && vs[1..][1..] == [];
    }
    assert cs[0] == RepeatC(SyncEntry, IntC) && vs[0] == ListV([StrV("")]);
    assert EncodeZip(cs, vs) == Ok(ToBE(1, 4) + (ToBE(5, 4) + Utf8.Encode("0.4.1") + []));
    assert ToBE(1, 4) + (ToBE(5, 4) + Utf8.Encode("0.4.1") + []) == ToBE(1, 4) + ToBE(5, 4) + Utf8.Encode("0.4.1");
  }

  /** Names and ids the `String` and `Int` codecs carry unchanged. */
  predicate SyncableEntry(name: string, id: int)
  {
    FaithfulText(name) && 0 <= id < Pow256(4)
  }

  lemma {:induction false} EntriesFaithful(packets: map<int, PacketKind>, ids: seq<int>)
    requires forall i :: 0 <= i < |ids| ==> ids[i] in packets
    requires forall i :: 0 <= i < |ids| ==> SyncableEntry(packets[ids[i]].name, ids[i])
    ensures FaithfulAll(SyncEntry, EntriesOf(packets, ids))
  {
    if ids != [] {
      var e := Entry(packets[ids[0]].name, ids[0]);
      assert FaithfulZip([IntC], [IntV(ids[0])]);
      assert Faithful(SyncEntry, e);
      EntriesFaithful(packets, ids[1..]);
    }
  }

  /** The sync packet the client writes carries its contents faithfully when
      every name is a non-empty ASCII string, every id fits an unsigned `Int`
      and the version is a non-empty ASCII string: the framing round trip then
      applies to it. */
  lemma CreateFaithful(st: RegState, version: string)
    requires ValidState(st) && |st.order| < Pow256(4) && FaithfulText(version)
    requires forall i :: 0 <= i < |st.order| ==> SyncableEntry(st.packets[st.order[i]].name, st.order[i])
    ensures FaithfulZip(ProtocolSync.fields, Create(st, version).values)
    ensures NewPacket(ProtocolSync, Create(st, version).values) == Ok(Create(st, version))
  {
    EntriesFaithful(st.packets, st.order);
    CreateBuilt(st, version);
    var p := Create(st, version);
    assert ProtocolSync.fields[1..] == [StringC] && p.values[1..] == [StrV(version)];
    assert FaithfulZip([StringC], [StrV(version)]) by {
      assert FaithfulZip([], []);
    }
    NewPacketIdempotent(ProtocolSync, [ListV(EntriesOf(st.packets, st.order)), StrV(version)]);
  }

  /** One sync entry is its name as a `String`, then its id as an `Int`. */
  lemma SyncEntryBytes(name: string, id: int)
    ensures Encode(SyncEntry, Entry(name, id)) ==
              match EncodeText(name)
              case Err(e) => Err(e)
              case Ok(a) =>
                match EncodeUint(id, 4)
                case Err(e) => Err(e)
                case Ok(b) => Ok(a + b)
  {
    assert Encode(SyncEntry, Entry(name, id)) == EncodeZip([StringC, IntC], [StrV(name), IntV(id)]);
    assert EncodeZip([IntC], [IntV(id)]) == Then(EncodeUint(id, 4), Ok([]));
    match EncodeText(name)
    case Err(_) =>
    case Ok(a) =>
      match EncodeUint(id, 4)
      case Err(_) =>
      case Ok(b) => assert b + [] == b;
  }

  /** A sync packet is the entry count as an `Int`, the entries, then the
      version as a `String`. */
  lemma SyncBody(st: RegState, version: string)
    requires ValidState(st)
    ensures Body(Create(st, version)) ==
              Then(Then(EncodeUint(|st.order|, 4), EncodeAll(SyncEntry, EntriesOf(st.packets, st.order))),
                   EncodeText(version))
  {
    var entries := EntriesOf(st.packets, st.order);
    assert Body(Create(st, version)) == EncodeZip([RepeatC(SyncEntry, IntC), StringC], [ListV(entries), StrV(version)]);
    IntCountedEncode(SyncEntry, entries);
    SyncVersionEncode(version);
  }

  /** A list counted by an `Int` is its count, then the items. */
  lemma IntCountedEncode(item: Codec, items: seq<Value>)
    ensures Encode(RepeatC(item, IntC), ListV(items)) == Then(EncodeUint(|items|, 4), EncodeAll(item, items))
  {
    assert Encode(RepeatC(item, IntC), ListV(items)) == EncodeRepeat(item, IntC, ListV(items));
    assert Encode(IntC, IntV(|items|)) == EncodeUint(|items|, 4);
  }

  /** The version closes a sync packet. */
  lemma SyncVersionEncode(version: string)
    ensures EncodeZip([StringC], [StrV(version)]) == EncodeText(version)
  {
    assert EncodeZip([StringC], [StrV(version)]) == Then(EncodeText(version), Ok([]));
    match EncodeText(version)
    case Err(_) =>
    case Ok(b) => assert b + [] == b;
  }

  /** A transaction packet is built from any integer, and its fields are
      exactly eight bytes when the id fits an unsigned `Long`. */
  lemma TransactionBody(n: int)
    ensures NewPacket(Transaction, [IntV(n)]) == Ok(Packet(Transaction, [IntV(n)]))
    ensures Body(Packet(Transaction, [IntV(n)])).Ok? <==> 0 <= n < Pow256(8)
    ensures Body(Packet(Transaction, [IntV(n)])).Ok? ==> |Body(Packet(Transaction, [IntV(n)])).value| == 8
  {
    NewPacketKeeps(Transaction, [IntV(n)]);
    assert Body(Packet(Transaction, [IntV(n)])) == Then(EncodeUint(n, 8), Ok([]));
  }

  /** `SetNetworkSetting.value` is `Union(Byte, Bool, Int)`: a `bool` takes
      tag 0 although it is an `int` too, any other integer takes tag 1, and the
      `Byte` tag makes every such packet fail to encode. */
  lemma NetworkSettingTags(b: bool, n: int, key: Value, v: Value)
    ensures Or(BoolC, IntC) == UnionC(ByteC, [BoolC, IntC])
    ensures FirstMatch([BoolC, IntC], BoolV(b)) == Ok(0)
    ensures FirstMatch([BoolC, IntC], IntV(n)) == Ok(1)
    ensures Body(Packet(SetNetworkSetting, [key, v])).Err?
  {
    var u := Or(BoolC, IntC);
    assert EncodeZip([StringC, u], [key, v]) == Then(Encode(StringC, key), EncodeZip([u], [v]));
    assert Encode(u, v).Err? by {
      assert Encode(u, v) == EncodeUnion(ByteC, [BoolC, IntC], v);
      if FirstMatch([BoolC, IntC], v).Ok? {
        assert Encode(ByteC, IntV(FirstMatch([BoolC, IntC], v).value)).Err?;
      }
    }
  }

  /** A login packet holds the document of the account's copy, and is
      written as the key "offline" as a `String`, then that document as a
      `String`: the username sent is the account type and the display name.
      The document is printable ASCII, so the packet reads back unchanged. */
  lemma LoginBody(a: Accounts.Account)
    requires |Accounts.Document(Accounts.Copied(a))| < Pow256(4)
    ensures NewPacket(Login, [AccountValue(a)]) == Ok(Packet(Login, [AccountValue(a)]))
    ensures Body(Packet(Login, [AccountValue(a)])) ==
              Ok(EncodeText("offline").value + EncodeText(Accounts.Document(Accounts.Copied(a))).value)
    ensures FaithfulZip(Login.fields, [AccountValue(a)])
  {
    var doc := Accounts.Document(Accounts.Copied(a));
    Accounts.DumpsPrintable(Accounts.GetDict(Accounts.Copied(a)));
    assert Utf8.IsAscii(doc);
    LoginNew(a);
    LoginDocument(doc);
  }

  /** The login body for a given document in the account field. */
  lemma LoginDocument(doc: string)
    requires FaithfulText(doc)
    ensures Body(Packet(Login, [RecordV(doc)])) == Ok(EncodeText("offline").value + EncodeText(doc).value)
    ensures FaithfulZip(Login.fields, [RecordV(doc)])
  {
    AccountFieldBytes(doc);
    AccountFieldEncodes(doc);
    var e := Encode(AccountField, RecordV(doc)).value;
    assert EncodeZip(Login.fields, [RecordV(doc)]) == Ok(e + []);
    assert e + [] == e;
    assert FaithfulZip([], []);
  }

  /** `LoginPacket(account)` keeps the account field's document as it is. */
  lemma LoginNew(a: Accounts.Account)
    ensures NewPacket(Login, [AccountValue(a)]) == Ok(Packet(Login, [AccountValue(a)]))
  {
    var es := [(StrV("offline"), RecordC)];
    assert Codecs(es) == [RecordC];
    assert FirstMatch(Codecs(es), AccountValue(a)) == Ok(0);
    NewPacketKeeps(Login, [AccountValue(a)]);
  }

  /** An account document in the mapped field converts to itself and is
      read back unchanged. */
  lemma AccountFieldBytes(doc: string)
    requires FaithfulText(doc)
    ensures Convert(AccountField, RecordV(doc)) == Ok(RecordV(doc))
    ensures Faithful(AccountField, RecordV(doc))
  {
    assert FaithfulText("offline") by {
      assert Utf8.IsAscii("offline");
    }
    var es := [(StrV("offline"), RecordC)];
    assert Codecs(es) == [RecordC];
    assert FirstMatch(Codecs(es), RecordV(doc)) == Ok(0);
    assert Lookup(es, StrV("offline")) == Some(0);
  }

  /** An account document in the mapped field is written as the key, then
      the document. */
  lemma AccountFieldEncodes(doc: string)
    requires FaithfulText(doc)
    ensures Encode(AccountField, RecordV(doc)) == Ok(EncodeText("offline").value + EncodeText(doc).value)
  {
    assert EncodeText("offline").Ok? && EncodeText(doc).Ok?;
    KeyedRecordEncodes(StrV("offline"), doc);
  }

  /** A mapped union whose one entry maps a string key to a record writes the
      key, then the document. */
  lemma KeyedRecordEncodes(k: Value, doc: string)
    requires k.StrV? && EncodeText(k.s).Ok? && EncodeText(doc).Ok?
    ensures Encode(OneOfMappedC(StringC, [(k, RecordC)]), RecordV(doc)) == Ok(EncodeText(k.s).value + EncodeText(doc).value)
  {
    var es := [(k, RecordC)];
    assert Codecs(es) == [RecordC];
    assert FirstMatch([RecordC], RecordV(doc)) == Ok(0);
    assert es[0].0 == k && Encode(StringC, k) == EncodeText(k.s);
    assert Encode(RecordC, RecordV(doc)) == EncodeText(doc);
    assert Encode(OneOfMappedC(StringC, es), RecordV(doc)) == EncodeMapped(StringC, es, RecordV(doc));
  }
}
