/** The behaviour of `Client` (with `BaseClient`) as functions of its state:
    sending, the event table and its dispatch, the handlers the client wires
    in, the protocol-sync handshake and the receive loop. The class in
    `client_object.dfy` performs the same steps in place and is proved equal
    to these functions. */
module Client {
  import opened Wire
  import opened IoTypes
  import opened Generic
  import opened Events
  import Accounts
  import Packets

  /** `Client.VERSION`. */
  const Version: string := "0.4.1"

  /** An event condition: a packet class (for "packet") or a value (the
      player unique id for "chat" and "join"). */
  datatype Key = KindKey(kind: PacketKind) | ValueKey(v: Value)

  /** The handlers the client wires in, and handlers added by users, which
      are opaque: `External(id, fails)` records its call and raises when
      `fails`. */
  datatype Handler =
    | OnProtocolSync
    | OnPlayer
    | OnPlayerSkin
    | OnMessage
    | OnLogin
    | External(id: nat, fails: bool)

  /** `RememberedPlayer`: the account and player payloads, and the skin. */
  datatype Remembered = Remembered(account: Option<Value>, player: Option<Value>, skin: Option<seq<byte>>)

  /** `RememberedPlayer()`, the value the `defaultdict` makes up. */
  const Unknown: Remembered := Remembered(None, None, None)

  /** `RememberedPlayer.is_known`. */
  predicate IsKnown(r: Remembered)
  {
    r.account.Some? && r.player.Some?
  }

  /** What a handler is called with: nothing, the packet, the chat pair
      (unique id, message), or the joined player. */
  datatype Args = NoArgs | PacketArg(p: Packet) | ChatArgs(uid: Value, message: Value) | JoinArg(player: Remembered)

  /** One call of a user handler. */
  datatype Call = Call(id: nat, args: Args)

  /** Everything the client's behaviour reads or changes. `outbox` holds the
      bytes written to the socket, one entry per `send_packet`; `calls` the
      user handlers' calls in order; `errors` the decode errors
      `receive_packets` reported and went past. */
  datatype ClientState = ClientState(
    reg: RegState,
    handlers: map<string, Entries<Handler, Key>>,
    players: map<Accounts.Json, Remembered>,
    connected: bool,
    loggedIn: bool,
    outbox: seq<seq<byte>>,
    calls: seq<Call>,
    errors: seq<Error>,
    account: Accounts.Account)

  /** A state after an operation, and whether the operation raised. */
  datatype Step = Step(st: ClientState, out: Outcome)

  /** Ranks that make dispatch terminate: a handler only fires events of a
      lower rank than its own, and an event only holds handlers of a lower
      rank than its own. */
  function EventRank(event: string): nat
  {
    if event == "packet" then 5 else if event == "connect" then 3 else 1
  }

  function HandlerRank(h: Handler): nat
  {
    match h
    case OnProtocolSync => 4
    case OnPlayerSkin => 1
    case External(_, _) => 0
    case _ => 2
  }

  ghost predicate WellRanked(table: map<string, Entries<Handler, Key>>)
  {
    forall e, i :: e in table && 0 <= i < |table[e]| ==> HandlerRank(table[e][i].0) < EventRank(e)
  }

  /** The invariant every operation keeps. */
  ghost predicate Good(st: ClientState)
  {
    ValidState(st.reg) && WellRanked(st.handlers)
  }

  /** No registry entry goes away. */
  ghost predicate KeysGrow(a: RegState, b: RegState)
  {
    a.packets.Keys <= b.packets.Keys && a.ids.Keys <= b.ids.Keys
  }

  /** Nothing sent, called or reported is taken back, no registry entry and
      no remembered player goes away, and the account stays. */
  ghost predicate Grows(a: ClientState, b: ClientState)
  {
    a.outbox <= b.outbox && a.calls <= b.calls && a.errors <= b.errors &&
    KeysGrow(a.reg, b.reg) && a.players.Keys <= b.players.Keys && a.account == b.account
  }

  /** The handlers `Client.__init__` adds, each packet handler with its packet
      class as condition, and the login handler on "connect". */
  function Wiring(): (r: map<string, Entries<Handler, Key>>)
    ensures WellRanked(r)
    ensures r.Keys == {"packet", "connect"}
  {
    map["packet" := [(OnProtocolSync, Some(KindKey(Packets.ProtocolSync))),
                     (OnPlayer, Some(KindKey(Packets.PlayerKind))),
                     (OnPlayerSkin, Some(KindKey(Packets.PlayerSkin))),
                     (OnMessage, Some(KindKey(Packets.Message)))],
        "connect" := [(OnLogin, None)]]
  }

  /** A freshly built client on a registry and an account. */
  function Initial(reg: RegState, account: Accounts.Account): (r: ClientState)
    requires ValidState(reg)
    ensures Good(r) && !r.connected && !r.loggedIn && r.outbox == [] && r.players == map[]
  {
    ClientState(reg, Wiring(), map[], false, false, [], [], [], account)
  }

  /** `add_event_handler` for a user handler. */
  function AddHandler(st: ClientState, event: string, id: nat, fails: bool, cond: Option<Key>): (r: ClientState)
    requires Good(st)
    ensures Good(r)
    ensures r == st.(handlers := Added(st.handlers, event, External(id, fails), cond))
  {
    st.(handlers := Added(st.handlers, event, External(id, fails), cond))
  }

  /** `send_packet`: the frame `serialize_packet` builds with the registry of
      the moment is written; a packet the registry cannot frame raises and
      nothing is written. */
  function Send(st: ClientState, p: Packet): (r: Step)
    ensures r.out.Pass? <==> Serialize(st.reg, p).Ok?
    ensures r.out.Fail? ==> r == Step(st, Fail(Serialize(st.reg, p).error))
    ensures r.out.Pass? ==> r.st == st.(outbox := st.outbox + [Serialize(st.reg, p).value])
  {
    match Serialize(st.reg, p)
    case Err(e) => Step(st, Fail(e))
    case Ok(frame) => Step(st.(outbox := st.outbox + [frame]), Pass)
  }

  /** `LoginPacket(self.account)`. Its field is the account value, the
      document of the copy `OfflineAccount(self.account)` the field writes
      (`Packets.AccountDocument`); `Packets.LoginNew` shows the constructor
      keeps it. */
  function LoginPacket(a: Accounts.Account): Packet
  {
    Packet(Packets.Login, [Packets.AccountValue(a)])
  }

  /** The text `send_chat` sends: the display name and "> " first when asked
      for. */
  function ChatText(a: Accounts.Account, message: string, prefix: bool): string
  {
    (if prefix then a.displayName + "> " else "") + message
  }

  /** `MessagePacket(text, "")`. */
  function ChatPacket(a: Accounts.Account, message: string, prefix: bool): Packet
  {
    Packet(Packets.Message, [StrV(ChatText(a, message, prefix)), StrV("")])
  }

  /** The chat packet is what `MessagePacket`'s constructor builds from the
      text and an empty player id: both are strings and stay as they are. */
  lemma ChatPacketBuilt(a: Accounts.Account, message: string, prefix: bool)
    ensures NewPacket(Packets.Message, [StrV(ChatText(a, message, prefix)), StrV("")]) == Ok(ChatPacket(a, message, prefix))
  {
    NewPacketKeeps(Packets.Message, [StrV(ChatText(a, message, prefix)), StrV("")]);
  }

  /** `send_chat(message, display_name_prefix)`. */
  function SendChat(st: ClientState, message: string, prefix: bool): Step
  {
    Send(st, ChatPacket(st.account, message, prefix))
  }

  /** `get_player`: the `defaultdict` lookup adds an unknown entry for a
      missing id; the player is returned only when account and player are
      both known. */
  function GetPlayer(st: ClientState, uid: Accounts.Json): (r: (ClientState, Result<Remembered>))
    ensures uid in r.0.players && r.0 == st.(players := r.0.players)
    ensures r.1.Ok? <==> uid in st.players && IsKnown(st.players[uid])
    ensures r.1.Ok? ==> r.1.value == st.players[uid] && r.0.players == st.players
    ensures r.1.Err? ==> r.1.error == KeyError
    ensures forall u :: u in st.players ==> u in r.0.players && r.0.players[u] == st.players[u]
  {
    var found := if uid in st.players then st.players[uid] else Unknown;
    (st.(players := st.players[uid := found]), if IsKnown(found) then Ok(found) else Err(KeyError))
  }

  /** One entry of a sync list as the decoder delivers it: a (name, id) pair. */
  function EntryOf(v: Value): Option<(string, int)>
  {
    if (v.TupleV? || v.ListV?) && |v.items| == 2 && v.items[0].StrV? && v.items[1].IntV?
    then Some((v.items[0].s, v.items[1].i))
    else None
  }

  /** One pass of the sync loop: the name must be registered, the id must be
      1 exactly for the sync packet, and the class registered under the
      name's current id is registered again under the server's id. */
  function AdoptOne(reg: RegState, v: Value): (r: Result<RegState>)
    requires ValidState(reg)
    ensures r.Ok? ==> ValidState(r.value) && KeysGrow(reg, r.value)
    ensures EntryOf(v).None? ==> r == Err(TypeError)
    ensures EntryOf(v).Some? && EntryOf(v).value.0 !in reg.ids ==> r == Err(UnknownPacket)
    ensures EntryOf(v).Some? && EntryOf(v).value.0 in reg.ids ==>
              ((EntryOf(v).value.1 == 1) != (EntryOf(v).value.0 == Packets.SyncName) ==> r == Err(SyncIdViolation))
  {
    match EntryOf(v)
    case None => Err(TypeError)
    case Some((name, id)) =>
      if name !in reg.ids then Err(UnknownPacket)
      else if (id == 1) != (name == Packets.SyncName) then Err(SyncIdViolation)
      else
        match KindOf(reg, reg.ids[name])
        case Err(e) => Err(e)
        case Ok(kind) =>
          RegisterKeepsOrder(reg, kind, Some(id));
          Ok(Registered(reg, kind, Some(id)))
  }

  /** The sync loop over the entries in list order; the first entry that
      raises ends it, and what was registered before stays registered. */
  function Adopt(reg: RegState, es: seq<Value>): (r: (RegState, Outcome))
    requires ValidState(reg)
    ensures ValidState(r.0) && KeysGrow(reg, r.0)
    decreases |es|
  {
    if es == [] then (reg, Pass)
    else
      match AdoptOne(reg, es[0])
      case Err(e) => (reg, Fail(e))
      case Ok(next) => Adopt(next, es[1..])
  }

  /** Python truthiness of a field value. */
  predicate Truthy(v: Value)
  {
    match v
    case BoolV(b) => b
    case IntV(n) => n != 0
    case BytesV(b) => b != []
    case StrV(s) => s != []
    case RecordV(_) => true
    case TupleV(items) => items != []
    case ListV(items) => items != []
  }

  /** `_event_call(event, condition, args)`: the event's handlers, in order,
      each that the condition admits, until one raises. */
  function Fire(idOf: string -> Accounts.Json, st: ClientState, event: string, occ: Option<Key>, args: Args): (r: Step)
    requires Good(st)
    ensures Good(r.st) && r.st.handlers == st.handlers && Grows(st, r.st)
    decreases EventRank(event), 2, 0
  {
    if event in st.handlers then Dispatch(idOf, st, event, st.handlers[event], occ, args) else Step(st, Pass)
  }

  function Dispatch(idOf: string -> Accounts.Json, st: ClientState, event: string, hs: Entries<Handler, Key>,
                    occ: Option<Key>, args: Args): (r: Step)
    requires Good(st)
    requires forall i :: 0 <= i < |hs| ==> HandlerRank(hs[i].0) < EventRank(event)
    ensures Good(r.st) && r.st.handlers == st.handlers && Grows(st, r.st)
    decreases EventRank(event), 1, |hs|
  {
    if hs == [] then Step(st, Pass)
    else if !Runs(occ, hs[0].1) then Dispatch(idOf, st, event, hs[1..], occ, args)
    else
      var r := Invoke(idOf, st, hs[0].0, args);
      if r.out.Fail? then r else Dispatch(idOf, r.st, event, hs[1..], occ, args)
  }

  /** Calling one handler. A handler called with arguments it does not take
      raises `TypeError`, and a packet without the fields it reads
      `AttributeError`; neither arises from the wiring in `Wiring`. */
  function Invoke(idOf: string -> Accounts.Json, st: ClientState, h: Handler, args: Args): (r: Step)
    requires Good(st)
    ensures Good(r.st) && r.st.handlers == st.handlers && Grows(st, r.st)
    decreases HandlerRank(h), 2, 0
  {
    match h
    case External(id, fails) =>
      Step(st.(calls := st.calls + [Call(id, args)]), if fails then Fail(HandlerRaised) else Pass)
    case OnLogin =>
      if args.NoArgs? then HandleLogin(idOf, st) else Step(st, Fail(TypeError))
    case OnProtocolSync =>
      if args.PacketArg? then HandleSync(idOf, st, args.p) else Step(st, Fail(TypeError))
    case OnPlayer =>
      if args.PacketArg? then HandlePlayer(idOf, st, args.p) else Step(st, Fail(TypeError))
    case OnPlayerSkin =>
      if args.PacketArg? then HandleSkin(st, args.p) else Step(st, Fail(TypeError))
    case OnMessage =>
      if !args.PacketArg? then Step(st, Fail(TypeError))
      else if |args.p.values| != 2 then Step(st, Fail(AttributeError))
      else
        var uid := args.p.values[1];
        Fire(idOf, st, "chat", Some(ValueKey(uid)), ChatArgs(uid, args.p.values[0]))
  }

  /** `_handle_login`: send the login packet, mark the client logged in,
      fire "login". */
  function HandleLogin(idOf: string -> Accounts.Json, st: ClientState): (r: Step)
    requires Good(st)
    ensures Good(r.st) && r.st.handlers == st.handlers && Grows(st, r.st)
    decreases 2, 1, 0
  {
    var sent := Send(st, LoginPacket(st.account));
    if sent.out.Fail? then sent
    else Fire(idOf, sent.st.(loggedIn := true), "login", None, NoArgs)
  }

  /** The condition value a unique id stands for: a string id as a `str`, an
      integer id as an `int`. */
  function IdValue(id: Accounts.Json): (r: Value)
    ensures r.StrV? <==> id.JStr?
    ensures id.JStr? ==> r == StrV(id.s)
    ensures id.JInt? ==> r == IntV(id.n)
  {
    match id
    case JStr(s) => StrV(s)
    case JInt(n) => IntV(n)
  }

  /** `_handle_player_packet`: a player not yet in the table is added with its
      account and player; "join" fires, with the unique id as condition, when
      `just_joined` is set. The table is keyed by `account.unique_id` as
      `from_dict` reads it: a string or an integer; `idOf` stands for reading
      it out of the account's JSON document. */
  function HandlePlayer(idOf: string -> Accounts.Json, st: ClientState, p: Packet): (r: Step)
    requires Good(st)
    ensures Good(r.st) && r.st.handlers == st.handlers && Grows(st, r.st)
    decreases 2, 1, 0
  {
    if |p.values| != 3 || !p.values[0].RecordV? then Step(st, Fail(AttributeError))
    else
      var uid := idOf(p.values[0].doc);
      var st1 :=
        if uid in st.players then st
        else st.(players := st.players[uid := Remembered(Some(p.values[0]), Some(p.values[1]), None)]);
      if Truthy(p.values[2]) then Fire(idOf, st1, "join", Some(ValueKey(IdValue(uid))), JoinArg(st1.players[uid]))
      else Step(st1, Pass)
  }

  /** `_handle_player_skin_packet`: the skin goes on the entry for the id,
      which the `defaultdict` creates when missing. */
  function HandleSkin(st: ClientState, p: Packet): (r: Step)
    requires Good(st)
    ensures Good(r.st) && r.st.handlers == st.handlers && Grows(st, r.st)
  {
    if |p.values| != 2 || !p.values[0].StrV? || !p.values[1].BytesV? then Step(st, Fail(AttributeError))
    else
      var uid := Accounts.JStr(p.values[0].s);
      var before := if uid in st.players then st.players[uid] else Unknown;
      Step(st.(players := st.players[uid := before.(skin := Some(p.values[1].bytes))]), Pass)
  }

  /** `_handle_protocol_sync`: the version check, the entry loop on the
      shared registry, the echo of the registry as a sync packet, then
      `connected` and the "connect" event. */
  function HandleSync(idOf: string -> Accounts.Json, st: ClientState, p: Packet): (r: Step)
    requires Good(st)
    ensures Good(r.st) && r.st.handlers == st.handlers && Grows(st, r.st)
    decreases 4, 1, 0
  {
    if |p.values| != 2 then Step(st, Fail(AttributeError))
    else if p.values[1] != StrV(Version) then Step(st, Fail(VersionMismatch))
    else if !(p.values[0].TupleV? || p.values[0].ListV?) then Step(st, Fail(TypeError))
    else
      var (reg, out) := Adopt(st.reg, p.values[0].items);
      if out.Fail? then Step(st.(reg := reg), out)
      else
        var sent := Send(st.(reg := reg), Packets.Create(reg, Version));
        if sent.out.Fail? then sent
        else Fire(idOf, sent.st.(connected := true), "connect", None, NoArgs)
  }

  /** `receive_packets` over the bytes `s` from `pos`: each frame is read; a
      frame that does not read is reported and skipped, a packet is fired as
      "packet" with its class as condition, and a handler that raises ends
      the loop. The loop ends at the end of the input. */
  function Receive(idOf: string -> Accounts.Json, st: ClientState, s: seq<byte>, pos: nat): (r: Step)
    requires Good(st) && pos <= |s|
    ensures Good(r.st) && r.st.handlers == st.handlers && Grows(st, r.st)
    decreases |s| - pos
  {
    if pos == |s| then Step(st, Pass)
    else
      var (res, next) := Deserialize(st.reg, s, pos);
      match res
      case Err(e) => Receive(idOf, st.(errors := st.errors + [e]), s, next)
      case Ok(p) =>
        var r := Fire(idOf, st, "packet", Some(KindKey(p.kind)), PacketArg(p));
        if r.out.Fail? then r else Receive(idOf, r.st, s, next)
  }

  // The sync loop.

  /** The loop over a list in two parts is the loop over the first part,
      then, unless it raised, over the second from where the first left the
      registry. */
  lemma {:induction false} AdoptConcat(reg: RegState, a: seq<Value>, b: seq<Value>)
    requires ValidState(reg)
    ensures Adopt(reg, a + b) ==
              var (r1, o1) := Adopt(reg, a);
              if o1.Fail? then (r1, o1) else Adopt(r1, b)
    decreases |a|
  {
    if a == [] {
      assert a + b == b;
    } else {
      assert (a + b)[0] == a[0] && (a + b)[1..] == a[1..] + b;
      match AdoptOne(reg, a[0])
      case Err(_) =>
      case Ok(next) => AdoptConcat(next, a[1..], b);
    }
  }

  /** An entry that raises leaves every registration made for the entries
      before it in place, and nothing after it is looked at. */
  lemma LaterFailureKeepsEarlier(reg: RegState, a: seq<Value>, bad: Value, rest: seq<Value>)
    requires ValidState(reg) && Adopt(reg, a).1.Pass? && AdoptOne(Adopt(reg, a).0, bad).Err?
    ensures Adopt(reg, a + [bad] + rest) == (Adopt(reg, a).0, Fail(AdoptOne(Adopt(reg, a).0, bad).error))
  {
    assert a + [bad] + rest == a + ([bad] + rest);
    AdoptConcat(reg, a, [bad] + rest);
    AdoptStops(Adopt(reg, a).0, bad, rest);
  }

  /** An entry that raises ends the loop where it stands. */
  lemma AdoptStops(reg: RegState, bad: Value, rest: seq<Value>)
    requires ValidState(reg) && AdoptOne(reg, bad).Err?
    ensures Adopt(reg, [bad] + rest) == (reg, Fail(AdoptOne(reg, bad).error))
  {
    assert ([bad] + rest)[0] == bad;
  }

  /** The sync list a server sends: entry `j` names `names[j]` with id
      `ids[j]`. */
  function SyncList(names: seq<string>, ids: seq<int>): (r: seq<Value>)
    requires |names| == |ids|
    ensures |r| == |names|
    ensures forall j :: 0 <= j < |r| ==> r[j] == Packets.Entry(names[j], ids[j])
  {
    seq(|names|, j requires 0 <= j < |names| => Packets.Entry(names[j], ids[j]))
  }

  /** Every listed name is registered, under an id whose class has that name. */
  ghost predicate Knows(reg: RegState, names: seq<string>)
  {
    forall j :: 0 <= j < |names| ==>
      names[j] in reg.ids && reg.ids[names[j]] in reg.packets && reg.packets[reg.ids[names[j]]].name == names[j]
  }

  /** A list the loop accepts: names and ids each listed once, ids positive,
      and id 1 exactly for the sync packet. */
  ghost predicate Acceptable(names: seq<string>, ids: seq<int>)
  {
    |names| == |ids| &&
    (forall j, k :: 0 <= j < k < |names| ==> names[j] != names[k] && ids[j] != ids[k]) &&
    (forall j :: 0 <= j < |ids| ==> ids[j] > 0 && ((ids[j] == 1) == (names[j] == Packets.SyncName)))
  }

  /** No server id is the current id of another listed name. */
  ghost predicate NoClash(reg: RegState, names: seq<string>, ids: seq<int>)
    requires |names| == |ids|
  {
    forall j, k :: 0 <= j < |names| && 0 <= k < |names| && j != k && names[k] in reg.ids ==> ids[j] != reg.ids[names[k]]
  }

  /** The registry adopts the server's numbering: each listed name gets its
      listed id, and that id gets the class the name had. Ids and names not
      listed keep their entries. This needs the side condition `NoClash`,
      because each lookup reads the registry the loop is rewriting. */
  lemma {:induction false} SyncAdopts(reg: RegState, names: seq<string>, ids: seq<int>)
    requires ValidState(reg) && Acceptable(names, ids) && Knows(reg, names) && NoClash(reg, names, ids)
    ensures var (r, out) := Adopt(reg, SyncList(names, ids));
            out == Pass &&
            (forall j :: 0 <= j < |names| ==>
               names[j] in r.ids && r.ids[names[j]] == ids[j] &&
               ids[j] in r.packets && r.packets[ids[j]] == reg.packets[reg.ids[names[j]]]) &&
            (forall n :: n !in names ==> (n in r.ids <==> n in reg.ids) && (n in reg.ids ==> r.ids[n] == reg.ids[n])) &&
            (forall id :: id !in ids ==>
               (id in r.packets <==> id in reg.packets) && (id in reg.packets ==> r.packets[id] == reg.packets[id]))
    decreases |names|
  {
    if names != [] {
      var next := SyncFirst(reg, names, ids);
      SyncAdopts(next, names[1..], ids[1..]);
      var r := Adopt(next, SyncList(names[1..], ids[1..])).0;
      forall j | 0 <= j < |names|
        ensures names[j] in r.ids && r.ids[names[j]] == ids[j]
        ensures ids[j] in r.packets && r.packets[ids[j]] == reg.packets[reg.ids[names[j]]]
      {
        if j > 0 {
          assert names[j] == names[1..][j - 1] && ids[j] == ids[1..][j - 1];
        }
      }
      forall n | n !in names
        ensures (n in r.ids <==> n in reg.ids) && (n in reg.ids ==> r.ids[n] == reg.ids[n])
      {
        assert n !in names[1..] && n != names[0];
      }
      forall id | id !in ids
        ensures (id in r.packets <==> id in reg.packets) && (id in reg.packets ==> r.packets[id] == reg.packets[id])
      {
        assert id !in ids[1..] && id != ids[0];
      }
    }
  }

  /** The first pass of the loop over an acceptable list: it registers the
      first name's class under the first id, and leaves the rest of the list
      acceptable, known and free of clashes. */
  lemma SyncFirst(reg: RegState, names: seq<string>, ids: seq<int>) returns (next: RegState)
    requires ValidState(reg) && Acceptable(names, ids) && Knows(reg, names) && NoClash(reg, names, ids)
    requires names != []
    ensures ValidState(next) && Acceptable(names[1..], ids[1..]) && Knows(next, names[1..])
    ensures Adopt(reg, SyncList(names, ids)) == Adopt(next, SyncList(names[1..], ids[1..]))
    ensures NoClash(next, names[1..], ids[1..])
    ensures names[0] in next.ids && next.ids[names[0]] == ids[0]
    ensures ids[0] in next.packets && next.packets[ids[0]] == reg.packets[reg.ids[names[0]]]
    ensures forall j :: 1 <= j < |names| ==>
              next.packets[next.ids[names[j]]] == reg.packets[reg.ids[names[j]]]
    ensures forall n :: n != names[0] ==> (n in next.ids <==> n in reg.ids) && (n in reg.ids ==> next.ids[n] == reg.ids[n])
    ensures forall id :: id != ids[0] ==>
              (id in next.packets <==> id in reg.packets) && (id in reg.packets ==> next.packets[id] == reg.packets[id])
    ensures names[0] !in names[1..] && ids[0] !in ids[1..]
  {
    var kind := reg.packets[reg.ids[names[0]]];
    next := SyncStep(reg, names, ids);
    RegisterLookups(reg, kind, Some(ids[0]));
    TailAcceptable(names, ids);
    TailKnown(reg, names, ids, kind);
  }

  /** The first pass registers the first name's current class under the
      first id, and the loop goes on with the rest of the list. */
  lemma SyncStep(reg: RegState, names: seq<string>, ids: seq<int>) returns (next: RegState)
    requires ValidState(reg) && |names| == |ids| && names != []
    requires names[0] in reg.ids && reg.ids[names[0]] in reg.packets
    requires ids[0] > 0 && ((ids[0] == 1) == (names[0] == Packets.SyncName))
    ensures next == Registered(reg, reg.packets[reg.ids[names[0]]], Some(ids[0]))
    ensures ValidState(next)
    ensures Adopt(reg, SyncList(names, ids)) == Adopt(next, SyncList(names[1..], ids[1..]))
  {
    var es := SyncList(names, ids);
    var kind := reg.packets[reg.ids[names[0]]];
    next := Registered(reg, kind, Some(ids[0]));
    assert EntryOf(es[0]) == Some((names[0], ids[0]));
    assert AdoptOne(reg, es[0]) == Ok(next);
    assert es[1..] == SyncList(names[1..], ids[1..]);
  }

  /** The rest of an acceptable list is acceptable and repeats neither the
      first name nor the first id. */
  lemma TailAcceptable(names: seq<string>, ids: seq<int>)
    requires Acceptable(names, ids) && names != []
    ensures Acceptable(names[1..], ids[1..])
    ensures names[0] !in names[1..] && ids[0] !in ids[1..]
  {
    assert forall k :: 0 <= k < |names[1..]| ==> names[1..][k] == names[k + 1];
    assert forall k :: 0 <= k < |ids[1..]| ==> ids[1..][k] == ids[k + 1];
  }

  /** After the first pass, the other listed names keep their ids and those
      ids keep their classes, so the rest of the list is still known and
      free of clashes. */
  lemma TailKnown(reg: RegState, names: seq<string>, ids: seq<int>, kind: PacketKind)
    requires Acceptable(names, ids) && Knows(reg, names) && NoClash(reg, names, ids) && names != []
    requires kind.name == names[0]
    ensures var next := Registered(reg, kind, Some(ids[0]));
            Knows(next, names[1..]) && NoClash(next, names[1..], ids[1..]) &&
            forall j :: 1 <= j < |names| ==>
              next.packets[next.ids[names[j]]] == reg.packets[reg.ids[names[j]]]
  {
    var next := Registered(reg, kind, Some(ids[0]));
    forall j | 1 <= j < |names|
      ensures names[j] in next.ids && next.ids[names[j]] == reg.ids[names[j]]
      ensures next.ids[names[j]] in next.packets && next.packets[next.ids[names[j]]] == reg.packets[reg.ids[names[j]]]
    {
      assert names[j] != names[0];
      assert ids[0] != reg.ids[names[j]];
    }
    assert forall k :: 0 <= k < |names[1..]| ==> names[1..][k] == names[k + 1];
    assert forall k :: 0 <= k < |ids[1..]| ==> ids[1..][k] == ids[k + 1];
  }

  /** The side condition cannot be dropped: a server that swaps the ids of
      two known classes leaves both ids naming the first class, and the
      second class's name keeps its old id. */
  lemma SwapRegistersWrongClass()
    ensures var t := Packets.Transaction;
            var l := Packets.Login;
            var reg := RegState([2, 3], map[2 := t, 3 := l], map[t.name := 2, l.name := 3]);
            ValidState(reg) &&
            Adopt(reg, [Packets.Entry(t.name, 3), Packets.Entry(l.name, 2)]) ==
              (RegState([2, 3], map[2 := t, 3 := t], map[t.name := 2, l.name := 3]), Pass)
  {
    var t := Packets.Transaction;
    var l := Packets.Login;
    var reg := RegState([2, 3], map[2 := t, 3 := l], map[t.name := 2, l.name := 3]);
    var es := [Packets.Entry(t.name, 3), Packets.Entry(l.name, 2)];
    var mid := RegState([2, 3], map[2 := t, 3 := t], map[t.name := 3, l.name := 3]);
    var last := RegState([2, 3], map[2 := t, 3 := t], map[t.name := 2, l.name := 3]);
    SwapFirstEntry();
    SwapSecondEntry();
    assert es[1..] == [es[1]] && es[1..][1..] == [];
    assert Adopt(last, es[1..][1..]) == (last, Pass);
  }

  /** The first swapped entry moves the first class to the second id. */
  lemma SwapFirstEntry()
    ensures var t := Packets.Transaction;
            var l := Packets.Login;
            AdoptOne(RegState([2, 3], map[2 := t, 3 := l], map[t.name := 2, l.name := 3]), Packets.Entry(t.name, 3)) ==
              Ok(RegState([2, 3], map[2 := t, 3 := t], map[t.name := 3, l.name := 3]))
  {
    var t := Packets.Transaction;
    var l := Packets.Login;
    assert t.name[49] == 'T' && l.name[49] == 'L' && Packets.SyncName[49] == 'P';
    var reg := RegState([2, 3], map[2 := t, 3 := l], map[t.name := 2, l.name := 3]);
    var mid := RegState([2, 3], map[2 := t, 3 := t], map[t.name := 3, l.name := 3]);
    assert EntryOf(Packets.Entry(t.name, 3)) == Some((t.name, 3)) && KindOf(reg, 2) == Ok(t);
    assert reg.packets[3 := t] == mid.packets && reg.ids[t.name := 3] == mid.ids;
    assert Registered(reg, t, Some(3)) == mid;
  }

  /** The second swapped entry looks up the first class under its new id and
      registers it again, under the first id. */
  lemma SwapSecondEntry()
    ensures var t := Packets.Transaction;
            var l := Packets.Login;
            AdoptOne(RegState([2, 3], map[2 := t, 3 := t], map[t.name := 3, l.name := 3]), Packets.Entry(l.name, 2)) ==
              Ok(RegState([2, 3], map[2 := t, 3 := t], map[t.name := 2, l.name := 3]))
  {
    var t := Packets.Transaction;
    var l := Packets.Login;
    assert t.name[49] == 'T' && l.name[49] == 'L' && Packets.SyncName[49] == 'P';
    var mid := RegState([2, 3], map[2 := t, 3 := t], map[t.name := 3, l.name := 3]);
    var last := RegState([2, 3], map[2 := t, 3 := t], map[t.name := 2, l.name := 3]);
    assert EntryOf(Packets.Entry(l.name, 2)) == Some((l.name, 2)) && KindOf(mid, 3) == Ok(t);
    assert mid.packets[2 := t] == last.packets && mid.ids[t.name := 2] == last.ids;
    assert Registered(mid, t, Some(2)) == last;
  }

  /** A wrong version raises before the registry, the outbox or anything
      else changes. */
  lemma VersionMismatchChangesNothing(idOf: string -> Accounts.Json, st: ClientState, p: Packet)
    requires Good(st) && |p.values| == 2 && p.values[1] != StrV(Version)
    ensures HandleSync(idOf, st, p) == Step(st, Fail(VersionMismatch))
  {
  }

  // Dispatch.

  /** Every handler in the list is a user handler. */
  predicate AllExternal(hs: Entries<Handler, Key>)
  {
    forall i :: 0 <= i < |hs| ==> hs[i].0.External?
  }

  /** Some handler in the list raises. */
  predicate Raises(ms: seq<Handler>)
  {
    ms != [] && ((ms[0].External? && ms[0].fails) || Raises(ms[1..]))
  }

  /** The handlers that get to run: all of them, up to and including the
      first that raises. */
  function Ran(ms: seq<Handler>): seq<Handler>
  {
    if ms == [] then []
    else if ms[0].External? && ms[0].fails then [ms[0]]
    else [ms[0]] + Ran(ms[1..])
  }

  /** The calls user handlers record. */
  function CallsOf(ms: seq<Handler>, args: Args): seq<Call>
  {
    if ms == [] then []
    else (if ms[0].External? then [Call(ms[0].id, args)] else []) + CallsOf(ms[1..], args)
  }

  /** The calls a user-handler list records for an occurrence. */
  function UserCalls(hs: Entries<Handler, Key>, occ: Option<Key>, args: Args): seq<Call>
  {
    CallsOf(Ran(Matching(hs, occ)), args)
  }

  /** What dispatch over user handlers comes to: the calls of the handlers
      that ran, and whether one of them raised. */
  function UserDispatch(st: ClientState, hs: Entries<Handler, Key>, occ: Option<Key>, args: Args): Step
  {
    Step(st.(calls := st.calls + UserCalls(hs, occ, args)),
         if Raises(Matching(hs, occ)) then Fail(HandlerRaised) else Pass)
  }

  /** On a list of user handlers, dispatch calls exactly the handlers the
      condition admits, in list order, and stops after the first that
      raises; nothing but the call record changes. */
  lemma {:induction false} DispatchExternals(idOf: string -> Accounts.Json, st: ClientState, event: string,
                                             hs: Entries<Handler, Key>, occ: Option<Key>, args: Args)
    requires Good(st) && AllExternal(hs)
    requires forall i :: 0 <= i < |hs| ==> HandlerRank(hs[i].0) < EventRank(event)
    ensures Dispatch(idOf, st, event, hs, occ, args) == UserDispatch(st, hs, occ, args)
    decreases |hs|
  {
    if hs == [] {
      assert st.calls + UserCalls(hs, occ, args) == st.calls;
    } else {
      var st1 := st.(calls := st.calls + [Call(hs[0].0.id, args)]);
      UserDispatchFirst(st, hs, occ, args);
      DispatchFirst(idOf, st, event, hs, occ, args);
      if !Runs(occ, hs[0].1) {
        DispatchExternals(idOf, st, event, hs[1..], occ, args);
      } else if !hs[0].0.fails {
        DispatchExternals(idOf, st1, event, hs[1..], occ, args);
      }
    }
  }

  /** `UserDispatch` one handler at a time. */
  lemma UserDispatchFirst(st: ClientState, hs: Entries<Handler, Key>, occ: Option<Key>, args: Args)
    requires AllExternal(hs) && hs != []
    ensures AllExternal(hs[1..])
    ensures var st1 := st.(calls := st.calls + [Call(hs[0].0.id, args)]);
            UserDispatch(st, hs, occ, args) ==
              if !Runs(occ, hs[0].1) then UserDispatch(st, hs[1..], occ, args)
              else if hs[0].0.fails then Step(st1, Fail(HandlerRaised))
              else UserDispatch(st1, hs[1..], occ, args)
  {
    UserCallsFirst(hs, occ, args);
    var call := Call(hs[0].0.id, args);
    var st1 := st.(calls := st.calls + [call]);
    if Runs(occ, hs[0].1) && !hs[0].0.fails {
      assert st1.calls + UserCalls(hs[1..], occ, args) == st.calls + UserCalls(hs, occ, args);
      assert UserDispatch(st1, hs[1..], occ, args).st == UserDispatch(st, hs, occ, args).st;
    }
  }

  /** One step of dispatch: the first handler is skipped when the condition
      does not admit it; otherwise it runs, and the rest run unless it
      raised. */
  lemma DispatchOne(idOf: string -> Accounts.Json, st: ClientState, event: string,
                    hs: Entries<Handler, Key>, occ: Option<Key>, args: Args)
    requires Good(st) && hs != []
    requires forall i :: 0 <= i < |hs| ==> HandlerRank(hs[i].0) < EventRank(event)
    ensures !Runs(occ, hs[0].1) ==> Dispatch(idOf, st, event, hs, occ, args) == Dispatch(idOf, st, event, hs[1..], occ, args)
    ensures Runs(occ, hs[0].1) && Invoke(idOf, st, hs[0].0, args).out.Fail? ==>
              Dispatch(idOf, st, event, hs, occ, args) == Invoke(idOf, st, hs[0].0, args)
    ensures Runs(occ, hs[0].1) && Invoke(idOf, st, hs[0].0, args).out.Pass? ==>
              Dispatch(idOf, st, event, hs, occ, args) == Dispatch(idOf, Invoke(idOf, st, hs[0].0, args).st, event, hs[1..], occ, args)
  {
  }

  /** One step of dispatch over a user handler. */
  lemma DispatchFirst(idOf: string -> Accounts.Json, st: ClientState, event: string,
                      hs: Entries<Handler, Key>, occ: Option<Key>, args: Args)
    requires Good(st) && hs != [] && hs[0].0.External?
    requires forall i :: 0 <= i < |hs| ==> HandlerRank(hs[i].0) < EventRank(event)
    ensures var st1 := st.(calls := st.calls + [Call(hs[0].0.id, args)]);
            Dispatch(idOf, st, event, hs, occ, args) ==
              if !Runs(occ, hs[0].1) then Dispatch(idOf, st, event, hs[1..], occ, args)
              else if hs[0].0.fails then Step(st1, Fail(HandlerRaised))
              else Dispatch(idOf, st1, event, hs[1..], occ, args)
  {
    var st1 := st.(calls := st.calls + [Call(hs[0].0.id, args)]);
    assert Invoke(idOf, st, hs[0].0, args) == Step(st1, if hs[0].0.fails then Fail(HandlerRaised) else Pass);
  }

  /** The first handler of a user-handler list: skipped when the condition
      does not admit it, the last to run when it raises, followed by the rest
      otherwise. */
  lemma UserCallsFirst(hs: Entries<Handler, Key>, occ: Option<Key>, args: Args)
    requires AllExternal(hs) && hs != []
    ensures AllExternal(hs[1..])
    ensures !Runs(occ, hs[0].1) ==>
              UserCalls(hs, occ, args) == UserCalls(hs[1..], occ, args) &&
              (Raises(Matching(hs, occ)) <==> Raises(Matching(hs[1..], occ)))
    ensures Runs(occ, hs[0].1) && hs[0].0.fails ==>
              UserCalls(hs, occ, args) == [Call(hs[0].0.id, args)] && Raises(Matching(hs, occ))
    ensures Runs(occ, hs[0].1) && !hs[0].0.fails ==>
              UserCalls(hs, occ, args) == [Call(hs[0].0.id, args)] + UserCalls(hs[1..], occ, args) &&
              (Raises(Matching(hs, occ)) <==> Raises(Matching(hs[1..], occ)))
  {
    var rest := Matching(hs[1..], occ);
    var ms := Matching(hs, occ);
    if !Runs(occ, hs[0].1) {
      assert ms == [] + rest == rest;
    } else {
      assert ms == [hs[0].0] + rest;
      RanFirst(hs[0].0, rest, args);
    }
  }

  /** `Ran` and `Raises` on a list that starts with a given user handler. */
  lemma RanFirst(h: Handler, rest: seq<Handler>, args: Args)
    requires h.External?
    ensures h.fails ==> CallsOf(Ran([h] + rest), args) == [Call(h.id, args)] && Raises([h] + rest)
    ensures !h.fails ==> CallsOf(Ran([h] + rest), args) == [Call(h.id, args)] + CallsOf(Ran(rest), args)
    ensures !h.fails ==> (Raises([h] + rest) <==> Raises(rest))
  {
    var ms := [h] + rest;
    assert ms[0] == h && ms[1..] == rest;
    if h.fails {
      assert Ran(ms) == [h];
    } else {
      assert Ran(ms) == [h] + Ran(rest);
      assert ([h] + Ran(rest))[1..] == Ran(rest);
    }
  }

  /** The events other than "packet" and "connect" ("login", "join",
      "chat", and any other) hold user handlers only; firing one calls the
      handlers its condition admits, in order, until one raises. An event
      nobody listens to does nothing. */
  lemma FireUserEvent(idOf: string -> Accounts.Json, st: ClientState, event: string, occ: Option<Key>, args: Args)
    requires Good(st) && event != "packet" && event != "connect"
    ensures AllExternal(Listeners(st, event))
    ensures Fire(idOf, st, event, occ, args) == UserDispatch(st, Listeners(st, event), occ, args)
  {
    if event in st.handlers {
      var hs := st.handlers[event];
      forall i | 0 <= i < |hs| ensures hs[i].0.External? {
        assert HandlerRank(hs[i].0) < EventRank(event);
      }
      DispatchExternals(idOf, st, event, hs, occ, args);
    } else {
      assert st.calls + UserCalls([], occ, args) == st.calls;
    }
  }

  /** The handlers a user event has. */
  function Listeners(st: ClientState, event: string): Entries<Handler, Key>
  {
    if event in st.handlers then st.handlers[event] else []
  }

  // The handshake.

  /** A sync that passes the version check and every entry, with the login
      handler alone on "connect": the echo is written, `connected` is set,
      and only then does the login handler run; it writes the login packet,
      sets `logged_in`, and the "login" handlers run last. */
  lemma Handshake(idOf: string -> Accounts.Json, st: ClientState, p: Packet, reg: RegState, echo: seq<byte>, login: seq<byte>)
    requires Good(st) && "connect" in st.handlers && st.handlers["connect"] == [(OnLogin, None)]
    requires |p.values| == 2 && p.values[1] == StrV(Version) && (p.values[0].TupleV? || p.values[0].ListV?)
    requires Adopt(st.reg, p.values[0].items) == (reg, Pass)
    requires Serialize(reg, Packets.Create(reg, Version)) == Ok(echo)
    requires Serialize(reg, LoginPacket(st.account)) == Ok(login)
    ensures HandleSync(idOf, st, p) ==
              UserDispatch(st.(reg := reg, outbox := st.outbox + [echo] + [login], connected := true, loggedIn := true),
                           Listeners(st, "login"), None, NoArgs)
  {
    SyncLogsIn(idOf, st, p, reg, echo);
    LoginSends(idOf, st.(reg := reg, outbox := st.outbox + [echo], connected := true), login);
  }

  /** Such a sync runs the login handler once the echo is out and `connected`
      is set. */
  lemma SyncLogsIn(idOf: string -> Accounts.Json, st: ClientState, p: Packet, reg: RegState, echo: seq<byte>)
    requires Good(st) && "connect" in st.handlers && st.handlers["connect"] == [(OnLogin, None)]
    requires |p.values| == 2 && p.values[1] == StrV(Version) && (p.values[0].TupleV? || p.values[0].ListV?)
    requires Adopt(st.reg, p.values[0].items) == (reg, Pass)
    requires Serialize(reg, Packets.Create(reg, Version)) == Ok(echo)
    ensures Good(st.(reg := reg, outbox := st.outbox + [echo], connected := true))
    ensures HandleSync(idOf, st, p) == HandleLogin(idOf, st.(reg := reg, outbox := st.outbox + [echo], connected := true))
  {
    SyncConnects(idOf, st, p, reg, echo);
    ConnectRunsLogin(idOf, st.(reg := reg, outbox := st.outbox + [echo], connected := true));
  }

  /** A sync that passes the version check and every entry writes the echo,
      sets `connected`, and then fires "connect". */
  lemma SyncConnects(idOf: string -> Accounts.Json, st: ClientState, p: Packet, reg: RegState, echo: seq<byte>)
    requires Good(st)
    requires |p.values| == 2 && p.values[1] == StrV(Version) && (p.values[0].TupleV? || p.values[0].ListV?)
    requires Adopt(st.reg, p.values[0].items) == (reg, Pass)
    requires Serialize(reg, Packets.Create(reg, Version)) == Ok(echo)
    ensures Good(st.(reg := reg, outbox := st.outbox + [echo], connected := true))
    ensures HandleSync(idOf, st, p) == Fire(idOf, st.(reg := reg, outbox := st.outbox + [echo], connected := true), "connect", None, NoArgs)
  {
    assert Send(st.(reg := reg), Packets.Create(reg, Version)) == Step(st.(reg := reg, outbox := st.outbox + [echo]), Pass);
  }

  /** With the login handler alone on "connect", firing "connect" is running
      the login handler. */
  lemma ConnectRunsLogin(idOf: string -> Accounts.Json, st: ClientState)
    requires Good(st) && "connect" in st.handlers && st.handlers["connect"] == [(OnLogin, None)]
    ensures Fire(idOf, st, "connect", None, NoArgs) == HandleLogin(idOf, st)
  {
    var hs := st.handlers["connect"];
    InvokeLogin(idOf, st);
    assert hs[1..] == [];
  }

  /** The login handler, called without arguments, is `HandleLogin`. */
  lemma InvokeLogin(idOf: string -> Accounts.Json, st: ClientState)
    requires Good(st)
    ensures Invoke(idOf, st, OnLogin, NoArgs) == HandleLogin(idOf, st)
  {
  }

  /** The login handler writes the login frame, sets `logged_in`, and then
      the "login" handlers run. */
  lemma LoginSends(idOf: string -> Accounts.Json, st: ClientState, login: seq<byte>)
    requires Good(st) && Serialize(st.reg, LoginPacket(st.account)) == Ok(login)
    ensures HandleLogin(idOf, st) ==
              UserDispatch(st.(outbox := st.outbox + [login], loggedIn := true), Listeners(st, "login"), None, NoArgs)
  {
    FireUserEvent(idOf, st.(outbox := st.outbox + [login], loggedIn := true), "login", None, NoArgs);
  }

  // The player table.

  /** A player packet adds an entry only for a unique id not yet in the
      table, and fires "join" for that id, with the entry, exactly when
      `just_joined` is set. */
  lemma PlayerPacket(idOf: string -> Accounts.Json, st: ClientState, p: Packet)
    requires Good(st) && |p.values| == 3 && p.values[0].RecordV?
    ensures var uid := idOf(p.values[0].doc);
            var players := if uid in st.players then st.players
                           else st.players[uid := Remembered(Some(p.values[0]), Some(p.values[1]), None)];
            HandlePlayer(idOf, st, p) ==
              if Truthy(p.values[2])
              then UserDispatch(st.(players := players), Listeners(st, "join"), Some(ValueKey(IdValue(uid))), JoinArg(players[uid]))
              else Step(st.(players := players), Pass)
  {
    var uid := idOf(p.values[0].doc);
    var players := if uid in st.players then st.players
                   else st.players[uid := Remembered(Some(p.values[0]), Some(p.values[1]), None)];
    FireUserEvent(idOf, st.(players := players), "join", Some(ValueKey(IdValue(uid))), JoinArg(players[uid]));
  }

  /** The first player packet for a unique id decides its entry: a later
      one for the same id changes nothing in the table. */
  lemma FirstPlayerPacketWins(idOf: string -> Accounts.Json, st: ClientState, p: Packet, q: Packet)
    requires Good(st) && |p.values| == 3 && p.values[0].RecordV? && |q.values| == 3 && q.values[0].RecordV?
    requires idOf(q.values[0].doc) == idOf(p.values[0].doc)
    ensures var after := HandlePlayer(idOf, st, p).st;
            HandlePlayer(idOf, after, q).st.players == after.players
  {
    PlayerPacket(idOf, st, p);
    var after := HandlePlayer(idOf, st, p).st;
    PlayerPacket(idOf, after, q);
  }

  /** A skin packet sets the skin of its id's entry, creating an unknown
      entry when there is none, and keeps every other entry. */
  lemma SkinPacket(st: ClientState, p: Packet)
    requires Good(st) && |p.values| == 2 && p.values[0].StrV? && p.values[1].BytesV?
    ensures var r := HandleSkin(st, p);
            var uid := Accounts.JStr(p.values[0].s);
            r.out == Pass && uid in r.st.players && r.st.players[uid].skin == Some(p.values[1].bytes) &&
            (uid in st.players ==> r.st.players[uid] == st.players[uid].(skin := Some(p.values[1].bytes))) &&
            (uid !in st.players ==> !IsKnown(r.st.players[uid])) &&
            (forall u :: u in st.players && u != uid ==> u in r.st.players && r.st.players[u] == st.players[u]) &&
            r.st == st.(players := r.st.players)
  {
  }

  /** A skin that arrives before the player packet for the same id leaves
      the player unknown for good: the skin creates the entry, so the player
      packet adds nothing, and `get_player` raises. */
  lemma SkinBeforePlayerStaysUnknown(idOf: string -> Accounts.Json, st: ClientState, skin: Packet, p: Packet)
    requires Good(st) && |skin.values| == 2 && skin.values[0].StrV? && skin.values[1].BytesV?
    requires |p.values| == 3 && p.values[0].RecordV? && idOf(p.values[0].doc) == Accounts.JStr(skin.values[0].s)
    requires Accounts.JStr(skin.values[0].s) !in st.players
    ensures var after := HandlePlayer(idOf, HandleSkin(st, skin).st, p).st;
            GetPlayer(after, Accounts.JStr(skin.values[0].s)).1 == Err(KeyError)
  {
    var mid := HandleSkin(st, skin).st;
    SkinPacket(st, skin);
    PlayerPacket(idOf, mid, p);
  }

  /** The skin table and the player table share keys only for string ids: a
      skin packet keys its entry by the `str` it carries, so the skin of a
      player whose unique id is an integer lands on an entry of its own and
      never reaches the player's entry. */
  lemma IntIdSkinApart(idOf: string -> Accounts.Json, st: ClientState, p: Packet, skin: Packet, n: int)
    requires Good(st) && |p.values| == 3 && p.values[0].RecordV? && idOf(p.values[0].doc) == Accounts.JInt(n)
    requires Accounts.JInt(n) !in st.players
    requires |skin.values| == 2 && skin.values[0].StrV? && skin.values[1].BytesV?
    ensures var after := HandleSkin(HandlePlayer(idOf, st, p).st, skin).st;
            Accounts.JInt(n) in after.players && Accounts.JStr(skin.values[0].s) in after.players &&
            after.players[Accounts.JInt(n)] == Remembered(Some(p.values[0]), Some(p.values[1]), None) &&
            after.players[Accounts.JStr(skin.values[0].s)].skin == Some(skin.values[1].bytes)
  {
    PlayerPacket(idOf, st, p);
    var mid := HandlePlayer(idOf, st, p).st;
    SkinPacket(mid, skin);
  }

  // Chat.

  /** A received message fires "chat" with its player unique id as
      condition and (unique id, message) as arguments. */
  lemma MessageFiresChat(idOf: string -> Accounts.Json, st: ClientState, p: Packet)
    requires Good(st) && |p.values| == 2
    ensures Invoke(idOf, st, OnMessage, PacketArg(p)) ==
              UserDispatch(st, Listeners(st, "chat"), Some(ValueKey(p.values[1])), ChatArgs(p.values[1], p.values[0]))
  {
    FireUserEvent(idOf, st, "chat", Some(ValueKey(p.values[1])), ChatArgs(p.values[1], p.values[0]));
  }

  // Sending and receiving.

  /** What `send_packet` writes reads back as the packet, when the registry
      maps the packet's id back to its class and its fields carry their
      values faithfully. */
  lemma SentReadsBack(st: ClientState, p: Packet)
    requires Send(st, p).out.Pass?
    requires p.kind.name in st.reg.ids && KindOf(st.reg, st.reg.ids[p.kind.name]) == Ok(p.kind)
    requires FaithfulZip(p.kind.fields, p.values) && NewPacket(p.kind, p.values) == Ok(p)
    ensures |Send(st, p).st.outbox| == |st.outbox| + 1
    ensures var frame := Send(st, p).st.outbox[|st.outbox|];
            Deserialize(st.reg, frame, 0) == (Ok(p), |frame|)
  {
    var frame := Serialize(st.reg, p).value;
    assert Send(st, p).st.outbox[|st.outbox|] == frame;
    assert At(frame, 0, frame) by {
      assert frame[0..|frame|] == frame;
    }
    FrameRoundTrip(st.reg, p, frame, frame, 0);
  }

  /** A frame that does not read is reported and the loop goes on with the
      next frame. */
  lemma ReceiveSkipsUnreadable(idOf: string -> Accounts.Json, st: ClientState, s: seq<byte>, pos: nat)
    requires Good(st) && pos < |s| && Deserialize(st.reg, s, pos).0.Err?
    ensures var (res, next) := Deserialize(st.reg, s, pos);
            pos < next &&
            Receive(idOf, st, s, pos) == Receive(idOf, st.(errors := st.errors + [res.error]), s, next)
  {
  }

  /** A handler that raises ends the loop: what the stream holds after the
      frame that raised is never read. */
  lemma ReceiveStopsAtRaise(idOf: string -> Accounts.Json, st: ClientState, s: seq<byte>, t: seq<byte>, pos: nat)
    requires Good(st) && pos + 4 <= |s| && pos + 4 + FromBE(s[pos..pos + 4]) <= |s|
    requires Deserialize(st.reg, s, pos).0.Ok?
    requires var p := Deserialize(st.reg, s, pos).0.value;
             Fire(idOf, st, "packet", Some(KindKey(p.kind)), PacketArg(p)).out.Fail?
    ensures Receive(idOf, st, s + t, pos) == Receive(idOf, st, s, pos)
    ensures var p := Deserialize(st.reg, s, pos).0.value;
            Receive(idOf, st, s, pos) == Fire(idOf, st, "packet", Some(KindKey(p.kind)), PacketArg(p))
  {
    DeserializePrefix(st.reg, s, t, pos);
  }

  /** Reading a frame that lies wholly in `s` does not look past it. */
  lemma DeserializePrefix(reg: RegState, s: seq<byte>, t: seq<byte>, pos: nat)
    requires pos + 4 <= |s| && pos + 4 + FromBE(s[pos..pos + 4]) <= |s|
    ensures Deserialize(reg, s + t, pos) == Deserialize(reg, s, pos)
  {
    var n := FromBE(s[pos..pos + 4]);
    assert (s + t)[pos..pos + 4] == s[pos..pos + 4];
    assert Read(s + t, pos, 4) == Read(s, pos, 4);
    assert (s + t)[pos + 4..pos + 4 + n] == s[pos + 4..pos + 4 + n];
    assert Read(s + t, pos + 4, n) == Read(s, pos + 4, n);
  }
}
