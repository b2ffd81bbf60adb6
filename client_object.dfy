/** `Client` as the object the source builds: its fields change in place, and
    every method is proved to leave the object in the state the matching
    function of the `Client` module computes, with the same outcome. The
    registry is the one shared `GamePacketRegistry` object; the sync handler
    rewrites it through `register`. */
module Clients {
  import opened Wire
  import opened IoTypes
  import opened Generic
  import opened Events
  import Accounts
  import Packets
  import opened Spec = Client

  class Client {
    /** The shared registry: `GamePacketRegistry()` hands out the same maps
        every time, so the "new" registry of the sync handler is this one. */
    const registry: GamePacketRegistry
    const account: Accounts.Account
    /** Reads the unique id out of an account's JSON document. */
    const idOf: string -> Accounts.Json
    var handlers: map<string, Entries<Handler, Key>>
    var players: map<Accounts.Json, Remembered>
    var connected: bool
    var loggedIn: bool
    var outbox: seq<seq<byte>>
    var calls: seq<Call>
    var errors: seq<Error>

    /** The object's state as a value. */
    function State(): ClientState
      reads this, registry
    {
      ClientState(registry.State(), handlers, players, connected, loggedIn, outbox, calls, errors, account)
    }

    ghost predicate Valid()
      reads this, registry
    {
      Good(State())
    }

    /** `Client.__init__`: the handlers wired in, nothing sent, no players. */
    constructor (registry: GamePacketRegistry, account: Accounts.Account, idOf: string -> Accounts.Json)
      requires registry.Valid()
      ensures this.registry == registry && this.idOf == idOf
      ensures Valid() && State() == Initial(registry.State(), account)
    {
      this.registry := registry;
      this.account := account;
      this.idOf := idOf;
      handlers := Wiring();
      players := map[];
      connected := false;
      loggedIn := false;
      outbox := [];
      calls := [];
      errors := [];
    }

    /** `add_event_handler` for a user handler. */
    method AddEventHandler(event: string, id: nat, fails: bool, cond: Option<Key>)
      requires Valid()
      modifies this
      ensures Valid() && State() == AddHandler(old(State()), event, id, fails, cond)
    {
      handlers := Added(handlers, event, External(id, fails), cond);
    }

    /** `send_packet`. */
    method SendPacket(p: Packet) returns (out: Outcome)
      requires Valid()
      modifies this
      ensures Valid() && Step(State(), out) == Send(old(State()), p)
    {
      match Serialize(registry.State(), p)
      case Err(e) =>
        out := Fail(e);
      case Ok(frame) =>
        outbox := outbox + [frame];
        out := Pass;
    }

    /** `send_chat`. */
    method SendChat(message: string, prefix: bool) returns (out: Outcome)
      requires Valid()
      modifies this
      ensures Valid() && Step(State(), out) == Spec.SendChat(old(State()), message, prefix)
    {
      out := SendPacket(ChatPacket(account, message, prefix));
    }

    /** `get_player`. */
    method GetPlayer(uid: Accounts.Json) returns (r: Result<Remembered>)
      modifies this
      ensures (State(), r) == Spec.GetPlayer(old(State()), uid)
    {
      if uid !in players {
        players := players[uid := Unknown];
      }
      var player := players[uid];
      assert players == players[uid := player];
      r := if IsKnown(player) then Ok(player) else Err(KeyError);
    }

    /** `_event_call`: the handlers of the event in the order they were
        added, each that the condition admits, until one raises. */
    method EventCall(event: string, occ: Option<Key>, args: Args) returns (out: Outcome)
      requires Valid()
      modifies this, registry
      ensures Valid() && handlers == old(handlers)
      ensures Step(State(), out) == Fire(idOf, old(State()), event, occ, args)
      decreases EventRank(event), 2, 0
    {
      var hs := if event in handlers then handlers[event] else [];
      while hs != []
        invariant Valid() && handlers == old(handlers)
        invariant forall j :: 0 <= j < |hs| ==> HandlerRank(hs[j].0) < EventRank(event)
        invariant Dispatch(idOf, State(), event, hs, occ, args) == Fire(idOf, old(State()), event, occ, args)
      {
        ghost var st := State();
        DispatchOne(idOf, st, event, hs, occ, args);
        if Runs(occ, hs[0].1) {
          out := Invoke(hs[0].0, args);
          if out.Fail? {
            return;
          }
        }
        hs := hs[1..];
      }
      out := Pass;
    }

    /** Calling one handler. */
    method Invoke(h: Handler, args: Args) returns (out: Outcome)
      requires Valid()
      modifies this, registry
      ensures Valid() && handlers == old(handlers)
      ensures Step(State(), out) == Spec.Invoke(idOf, old(State()), h, args)
      decreases HandlerRank(h), 2, 0
    {
      match h
      case External(id, fails) =>
        calls := calls + [Call(id, args)];
        out := if fails then Fail(HandlerRaised) else Pass;
      case OnLogin =>
        if args.NoArgs? {
          out := HandleLogin();
        } else {
          out := Fail(TypeError);
        }
      case OnProtocolSync =>
        if args.PacketArg? {
          out := HandleSync(args.p);
        } else {
          out := Fail(TypeError);
        }
      case OnPlayer =>
        if args.PacketArg? {
          out := HandlePlayer(args.p);
        } else {
          out := Fail(TypeError);
        }
      case OnPlayerSkin =>
        if args.PacketArg? {
          out := HandleSkin(args.p);
        } else {
          out := Fail(TypeError);
        }
      case OnMessage =>
        if !args.PacketArg? {
          out := Fail(TypeError);
        } else if |args.p.values| != 2 {
          out := Fail(AttributeError);
        } else {
          var uid := args.p.values[1];
          out := EventCall("chat", Some(ValueKey(uid)), ChatArgs(uid, args.p.values[0]));
        }
    }

    /** `_handle_login`. */
    method HandleLogin() returns (out: Outcome)
      requires Valid()
      modifies this, registry
      ensures Valid() && handlers == old(handlers)
      ensures Step(State(), out) == Spec.HandleLogin(idOf, old(State()))
      decreases 2, 1, 0
    {
      out := SendPacket(LoginPacket(account));
      if out.Fail? {
        return;
      }
      loggedIn := true;
      out := EventCall("login", None, NoArgs);
    }

    /** `_handle_player_packet`. */
    method HandlePlayer(p: Packet) returns (out: Outcome)
      requires Valid()
      modifies this, registry
      ensures Valid() && handlers == old(handlers)
      ensures Step(State(), out) == Spec.HandlePlayer(idOf, old(State()), p)
      decreases 2, 1, 0
    {
      if |p.values| != 3 || !p.values[0].RecordV? {
        return Fail(AttributeError);
      }
      var uid := idOf(p.values[0].doc);
      if uid !in players {
        players := players[uid := Remembered(Some(p.values[0]), Some(p.values[1]), None)];
      }
      if Truthy(p.values[2]) {
        out := EventCall("join", Some(ValueKey(IdValue(uid))), JoinArg(players[uid]));
      } else {
        out := Pass;
      }
    }

    /** `_handle_player_skin_packet`. */
    method HandleSkin(p: Packet) returns (out: Outcome)
      requires Valid()
      modifies this
      ensures Valid() && handlers == old(handlers)
      ensures Step(State(), out) == Spec.HandleSkin(old(State()), p)
    {
      if |p.values| != 2 || !p.values[0].StrV? || !p.values[1].BytesV? {
        return Fail(AttributeError);
      }
      var uid := Accounts.JStr(p.values[0].s);
      var before := if uid in players then players[uid] else Unknown;
      players := players[uid := before.(skin := Some(p.values[1].bytes))];
      out := Pass;
    }

    /** `_handle_protocol_sync`. */
    method HandleSync(p: Packet) returns (out: Outcome)
      requires Valid()
      modifies this, registry
      ensures Valid() && handlers == old(handlers)
      ensures Step(State(), out) == Spec.HandleSync(idOf, old(State()), p)
      decreases 4, 1, 0
    {
      if |p.values| != 2 {
        return Fail(AttributeError);
      }
      if p.values[1] != StrV(Version) {
        return Fail(VersionMismatch);
      }
      if !(p.values[0].TupleV? || p.values[0].ListV?) {
        return Fail(TypeError);
      }
      out := AdoptEntries(p.values[0].items);
      if out.Fail? {
        return;
      }
      out := SendPacket(Packets.Create(registry.State(), Version));
      if out.Fail? {
        return;
      }
      connected := true;
      out := EventCall("connect", None, NoArgs);
    }

    /** The loop of `_handle_protocol_sync` over the entries: each is checked
        and its class registered again, under the server's id, in the shared
        registry; the first entry that raises ends the loop. */
    method AdoptEntries(es: seq<Value>) returns (out: Outcome)
      requires registry.Valid()
      modifies registry
      ensures registry.Valid()
      ensures (registry.State(), out) == Adopt(old(registry.State()), es)
    {
      var i := 0;
      while i < |es|
        invariant 0 <= i <= |es| && registry.Valid()
        invariant Adopt(registry.State(), es[i..]) == Adopt(old(registry.State()), es)
      {
        assert es[i..][0] == es[i] && es[i..][1..] == es[i + 1..];
        match EntryOf(es[i]) {
          case None =>
            return Fail(TypeError);
          case Some((name, id)) =>
            if name !in registry.ids {
              return Fail(UnknownPacket);
            }
            if (id == 1) != (name == Packets.SyncName) {
              return Fail(SyncIdViolation);
            }
            var kind := registry.GetPacketById(registry.ids[name]);
            if kind.Err? {
              return Fail(kind.error);
            }
            registry.Register(kind.value, Some(id));
        }
        i := i + 1;
      }
      out := Pass;
    }

    /** `receive_packets` over the bytes `s`: an unreadable frame is
        reported and skipped, a packet is fired as "packet", and a handler
        that raises ends the loop. */
    method ReceivePackets(s: seq<byte>) returns (out: Outcome)
      requires Valid()
      modifies this, registry
      ensures Valid() && handlers == old(handlers)
      ensures Step(State(), out) == Receive(idOf, old(State()), s, 0)
    {
      var pos := 0;
      while pos < |s|
        invariant pos <= |s| && Valid() && handlers == old(handlers)
        invariant Receive(idOf, State(), s, pos) == Receive(idOf, old(State()), s, 0)
        decreases |s| - pos
      {
        var (res, next) := Deserialize(registry.State(), s, pos);
        match res {
          case Err(e) =>
            errors := errors + [e];
          case Ok(p) =>
            out := EventCall("packet", Some(KindKey(p.kind)), PacketArg(p));
            if out.Fail? {
              return;
            }
        }
        pos := next;
      }
      out := Pass;
    }
  }
}
