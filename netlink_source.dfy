/**
 * The nl80211 presence source: the set of stations associated with the
 * local access point, kept up to date from station notifications and from
 * periodic full enumerations, and the "all watched addresses present"
 * occupancy rule evaluated against it.
 *
 * Replies of the generic-netlink socket are inputs: a message carries its
 * command and the list of attributes the netlink attribute decoder yields
 * for its payload (or the decoder's error).
 */
module NetlinkSource {
  import opened Wrappers
  import opened Sets

  newtype uint8 = x: int | 0 <= x < 0x100
  newtype uint16 = x: int | 0 <= x < 0x1_0000
  newtype uint32 = x: int | 0 <= x < 0x1_0000_0000
  type byte = uint8

  /** The nl80211 notification commands and the attribute that carries a station's address. */
  const CmdNewStation: uint8 := 19
  const CmdDelStation: uint8 := 20
  const AttrMac: uint16 := 6
  const MlmeGroupName: string := "mlme"

  /** Errors are opaque values handed back by the socket, except this one. */
  datatype Error = Error(message: string)
  const MlmeNotFound: Error := Error("mlme group is not found")

  /** One netlink attribute: its type and its raw value. */
  datatype Attribute = Attribute(typ: uint16, data: seq<byte>)

  /** What a map lookup of an absent attribute type yields. */
  const ZeroAttribute: Attribute := Attribute(0, [])

  /** A generic-netlink message: a command and its decoded attributes. */
  datatype Message = Message(command: uint8, attributes: Result<seq<Attribute>, Error>)

  datatype MulticastGroup = MulticastGroup(id: uint32, name: string)

  datatype Family = Family(id: uint16, version: uint8, groups: seq<MulticastGroup>)

  /** One message of the interface dump and the reply to the station dump issued for it. */
  datatype InterfaceDump = InterfaceDump(iface: Message, stations: Result<seq<Message>, Error>)

  /** The replies one station enumeration receives: the family lookup and the interface dump. */
  datatype Replies = Replies(family: Result<Family, Error>, interfaces: Result<seq<InterfaceDump>, Error>)

  // ---------------------------------------------------------------------
  // Keyed maps: the loops of getAttributes and getMulticastGroups
  // ---------------------------------------------------------------------

  /** The map a loop `m[key(x)] = x` over `xs` builds: later elements overwrite earlier ones. */
  function IndexBy<K, V>(xs: seq<V>, key: V -> K): (m: map<K, V>)
    ensures m.Keys == set i | 0 <= i < |xs| :: key(xs[i])
  {
    if xs == [] then map[]
    else
      var init := xs[..|xs| - 1];
      var m := IndexBy(init, key)[key(xs[|xs| - 1]) := xs[|xs| - 1]];
      assert m.Keys == (set i | 0 <= i < |xs| :: key(xs[i])) by {
        forall k ensures k in m.Keys <==> k in (set i | 0 <= i < |xs| :: key(xs[i])) {
          if k in m.Keys && k != key(xs[|xs| - 1]) {
            var i :| 0 <= i < |init| && key(init[i]) == k;
            assert key(xs[i]) == k;
          }
          if k in (set i | 0 <= i < |xs| :: key(xs[i])) {
            var i :| 0 <= i < |xs| && key(xs[i]) == k;
            if i < |xs| - 1 { assert key(init[i]) == k; }
          }
        }
      }
      m
  }

  /** Last write wins: a key maps to the last element of the list that carries it. */
  lemma {:induction false} IndexByLastWins<K, V>(xs: seq<V>, key: V -> K, i: nat)
    requires i < |xs|
    requires forall j :: i < j < |xs| ==> key(xs[j]) != key(xs[i])
    ensures key(xs[i]) in IndexBy(xs, key) && IndexBy(xs, key)[key(xs[i])] == xs[i]
  {
    if i < |xs| - 1 {
      var init := xs[..|xs| - 1];
      forall j | i < j < |init| ensures key(init[j]) != key(init[i]) {
        assert init[j] == xs[j];
      }
      IndexByLastWins(init, key, i);
    }
  }

  /** Every entry of the map is some element of the list stored under its own key. */
  lemma {:induction false} IndexByEntry<K, V>(xs: seq<V>, key: V -> K, k: K)
    requires k in IndexBy(xs, key)
    ensures IndexBy(xs, key)[k] in xs && key(IndexBy(xs, key)[k]) == k
  {
    var init := xs[..|xs| - 1];
    if k != key(xs[|xs| - 1]) {
      IndexByEntry(init, key, k);
    }
  }

  function AttrType(a: Attribute): uint16 { a.typ }

  function GroupName(g: MulticastGroup): string { g.name }

  /** An attribute map lookup; an absent type yields the zero attribute, as a Go map does. */
  function Lookup(attrs: map<uint16, Attribute>, typ: uint16): Attribute
  {
    if typ in attrs then attrs[typ] else ZeroAttribute
  }

  // ---------------------------------------------------------------------
  // Hardware addresses
  // ---------------------------------------------------------------------

  const HexDigits: string := "0123456789abcdef"

  function HexPair(b: byte): string
  {
    [HexDigits[b as int / 16], HexDigits[b as int % 16]]
  }

  /** The canonical rendering of a hardware address: lower-case hex octets joined by ':'. */
  function MacString(a: seq<byte>): (r: string)
    ensures r == [] <==> a == []
    ensures a != [] ==> |r| == 3 * |a| - 1
  {
    if a == [] then ""
    else if |a| == 1 then HexPair(a[0])
    else HexPair(a[0]) + ":" + MacString(a[1..])
  }

  lemma HexPairInjective(b: byte, c: byte)
    requires HexPair(b) == HexPair(c)
    ensures b == c
  {
    assert HexPair(b)[0] == HexPair(c)[0] && HexPair(b)[1] == HexPair(c)[1];
    var p, q := b as int / 16, c as int / 16;
    var u, v := b as int % 16, c as int % 16;
    assert forall i, j :: 0 <= i < 16 && 0 <= j < 16 && HexDigits[i] == HexDigits[j] ==> i == j;
    assert p == q && u == v;
  }

  /** Distinct addresses render to distinct strings, so sets of strings mirror sets of addresses. */
  lemma {:induction false} MacStringInjective(a: seq<byte>, b: seq<byte>)
    requires MacString(a) == MacString(b)
    ensures a == b
  {
    if a != [] {
      assert |a| == |b|;
      var r := MacString(a);
      assert HexPair(a[0]) == r[..2] == HexPair(b[0]);
      HexPairInjective(a[0], b[0]);
      if |a| > 1 {
        assert MacString(a[1..]) == r[3..] == MacString(b[1..]);
        MacStringInjective(a[1..], b[1..]);
        assert a == [a[0]] + a[1..] && b == [b[0]] + b[1..];
      }
    }
  }

  /** The station a decoded record names: its MAC attribute, rendered; "" when there is none. */
  function StationName(attrs: map<uint16, Attribute>): string
  {
    MacString(Lookup(attrs, AttrMac).data)
  }

  /** A record without a MAC attribute names the empty string rather than failing. */
  lemma MissingMacIsEmpty(attrs: map<uint16, Attribute>)
    ensures StationName(attrs) == "" <==> AttrMac !in attrs || attrs[AttrMac].data == []
  {
  }

  // ---------------------------------------------------------------------
  // Specification of one enumeration (getAllStations)
  // ---------------------------------------------------------------------

  /** The attribute map of a decoded message, or the decoder's error. */
  function AttributeMap(decoded: Result<seq<Attribute>, Error>): Result<map<uint16, Attribute>, Error>
  {
    match decoded
    case Failure(e) => Failure(e)
    case Success(attrs) => Success(IndexBy(attrs, AttrType))
  }

  /** Names found so far followed by more names; the earlier error, if any, wins. */
  function Chain(first: Result<seq<string>, Error>, next: Result<seq<string>, Error>): Result<seq<string>, Error>
  {
    match first
    case Failure(e) => Failure(e)
    case Success(x) =>
      match next
      case Failure(e) => Failure(e)
      case Success(y) => Success(x + y)
  }

  lemma ChainAssociative(x: Result<seq<string>, Error>, y: Result<seq<string>, Error>, z: Result<seq<string>, Error>)
    ensures Chain(Chain(x, y), z) == Chain(x, Chain(y, z))
  {
    if x.Success? && y.Success? && z.Success? {
      assert x.value + y.value + z.value == x.value + (y.value + z.value);
    }
  }

  /** The name one station record contributes, or the decoder's error. */
  function RecordName(record: Message): Result<seq<string>, Error>
  {
    match AttributeMap(record.attributes)
    case Failure(e) => Failure(e)
    case Success(attrs) => Success([StationName(attrs)])
  }

  /** The station names of one station dump, in order; the first record that does not decode aborts. */
  function StationNames(dump: seq<Message>): Result<seq<string>, Error>
  {
    if dump == [] then Success([])
    else Chain(StationNames(dump[..|dump| - 1]), RecordName(dump[|dump| - 1]))
  }

  /** The names one interface contributes: its station dump's, or the dump's error. */
  function InterfaceNames(d: InterfaceDump): Result<seq<string>, Error>
  {
    match d.stations
    case Failure(e) => Failure(e)
    case Success(dump) => StationNames(dump)
  }

  /** The station names of all interfaces, interface by interface; the first error aborts. */
  function Enumerate(ifaces: seq<InterfaceDump>): Result<seq<string>, Error>
  {
    if ifaces == [] then Success([])
    else Chain(Enumerate(ifaces[..|ifaces| - 1]), InterfaceNames(ifaces[|ifaces| - 1]))
  }

  /** A full enumeration: the family lookup, the interface dump, then every station dump. */
  function AllStations(replies: Replies): Result<seq<string>, Error>
  {
    match replies.family
    case Failure(e) => Failure(e)
    case Success(_) =>
      match replies.interfaces
      case Failure(e) => Failure(e)
      case Success(ifaces) => Enumerate(ifaces)
  }

  /** Once a prefix of a station dump fails, the whole dump fails with that error. */
  lemma {:induction false} StationNamesAbort(dump: seq<Message>, k: nat)
    requires k <= |dump| && StationNames(dump[..k]).Failure?
    ensures StationNames(dump) == StationNames(dump[..k])
  {
    if k < |dump| {
      var init := dump[..|dump| - 1];
      assert init[..k] == dump[..k];
      StationNamesAbort(init, k);
    } else {
      assert dump[..k] == dump;
    }
  }

  /** Once a prefix of the interfaces fails, the whole enumeration fails with that error. */
  lemma {:induction false} EnumerateAbort(ifaces: seq<InterfaceDump>, k: nat)
    requires k <= |ifaces| && Enumerate(ifaces[..k]).Failure?
    ensures Enumerate(ifaces) == Enumerate(ifaces[..k])
  {
    if k < |ifaces| {
      var init := ifaces[..|ifaces| - 1];
      assert init[..k] == ifaces[..k];
      EnumerateAbort(init, k);
    } else {
      assert ifaces[..k] == ifaces;
    }
  }

  /** A station dump succeeds exactly when every record in it decodes. */
  lemma {:induction false} StationNamesDecodes(dump: seq<Message>)
    ensures StationNames(dump).Success? <==> forall j :: 0 <= j < |dump| ==> dump[j].attributes.Success?
  {
    if dump != [] {
      var init := dump[..|dump| - 1];
      StationNamesDecodes(init);
      assert forall j :: 0 <= j < |init| ==> init[j] == dump[j];
    }
  }

  /** A successful station dump gives one name per record, in record order. */
  lemma {:induction false} StationNamesInOrder(dump: seq<Message>)
    requires StationNames(dump).Success?
    ensures |StationNames(dump).value| == |dump|
    ensures forall j :: 0 <= j < |dump| ==>
      dump[j].attributes.Success? &&
      StationNames(dump).value[j] == StationName(IndexBy(dump[j].attributes.value, AttrType))
  {
    if dump != [] {
      var init, last := dump[..|dump| - 1], dump[|dump| - 1];
      assert StationNames(dump) == Chain(StationNames(init), RecordName(last));
      StationNamesInOrder(init);
      var names := StationNames(init).value;
      assert RecordName(last) == Success([StationName(IndexBy(last.attributes.value, AttrType))]);
      forall j | 0 <= j < |init|
        ensures dump[j].attributes.Success? &&
          StationNames(dump).value[j] == StationName(IndexBy(dump[j].attributes.value, AttrType))
      {
        assert init[j] == dump[j];
        assert StationNames(dump).value[j] == names[j];
      }
    }
  }

  /**
   * One name per station record, in record order, and success exactly when
   * every record decodes.
   */
  lemma StationNamesShape(dump: seq<Message>)
    ensures StationNames(dump).Success? <==> forall j :: 0 <= j < |dump| ==> dump[j].attributes.Success?
    ensures StationNames(dump).Success? ==>
      |StationNames(dump).value| == |dump| &&
      forall j :: 0 <= j < |dump| ==>
        StationNames(dump).value[j] == StationName(IndexBy(dump[j].attributes.value, AttrType))
  {
    StationNamesDecodes(dump);
    if StationNames(dump).Success? {
      StationNamesInOrder(dump);
    }
  }

  /**
   * An enumeration succeeds exactly when every interface's station dump
   * succeeds and every record in it decodes.
   */
  lemma {:induction false} EnumerateSuccessIff(ifaces: seq<InterfaceDump>)
    ensures Enumerate(ifaces).Success? <==>
      forall i :: 0 <= i < |ifaces| ==>
        ifaces[i].stations.Success? &&
        forall j :: 0 <= j < |ifaces[i].stations.value| ==> ifaces[i].stations.value[j].attributes.Success?
  {
    if ifaces != [] {
      var init := ifaces[..|ifaces| - 1];
      var last := ifaces[|ifaces| - 1];
      EnumerateSuccessIff(init);
      assert forall i :: 0 <= i < |init| ==> init[i] == ifaces[i];
      if last.stations.Success? {
        StationNamesDecodes(last.stations.value);
      }
    }
  }

  /** Enumerating interfaces one at a time: the prefix's names, then the next interface's. */
  lemma EnumerateStep(a: seq<InterfaceDump>, d: InterfaceDump)
    ensures Enumerate(a + [d]) == Chain(Enumerate(a), InterfaceNames(d))
  {
    assert (a + [d])[..|a + [d]| - 1] == a;
  }

  /**
   * Enumeration is compositional: the names of `a + b` are those of `a`
   * followed by those of `b`, and an error in `a` is reported before any
   * error in `b`.
   */
  lemma {:induction false} EnumerateConcat(a: seq<InterfaceDump>, b: seq<InterfaceDump>)
    ensures Enumerate(a + b) == Chain(Enumerate(a), Enumerate(b))
  {
    if b == [] {
      assert a + b == a;
      if Enumerate(a).Success? {
        assert Enumerate(a).value + [] == Enumerate(a).value;
      }
    } else {
      var binit, last := b[..|b| - 1], b[|b| - 1];
      assert a + b == (a + binit) + [last];
      EnumerateStep(a + binit, last);
      EnumerateConcat(a, binit);
      ChainAssociative(Enumerate(a), Enumerate(binit), InterfaceNames(last));
    }
  }

  /** A single interface contributes exactly the names of its own station dump. */
  lemma SingleInterface(d: InterfaceDump)
    ensures Enumerate([d]) == InterfaceNames(d)
  {
    assert [d][..0] == [];
    if InterfaceNames(d).Success? {
      assert [] + InterfaceNames(d).value == InterfaceNames(d).value;
    }
  }

  // ---------------------------------------------------------------------
  // The mlme group
  // ---------------------------------------------------------------------

  /** The lookup `groups["mlme"]` in the map of the family's multicast groups. */
  function MlmeGroup(groups: seq<MulticastGroup>): Result<MulticastGroup, Error>
  {
    var byName := IndexBy(groups, GroupName);
    if MlmeGroupName in byName then Success(byName[MlmeGroupName]) else Failure(MlmeNotFound)
  }

  /** The lookup fails exactly when no group is named "mlme", and otherwise finds the last one. */
  lemma MlmeGroupFound(groups: seq<MulticastGroup>)
    ensures MlmeGroup(groups).Failure? <==> forall i :: 0 <= i < |groups| ==> groups[i].name != MlmeGroupName
    ensures MlmeGroup(groups).Failure? ==> MlmeGroup(groups).error == MlmeNotFound
    ensures MlmeGroup(groups).Success? ==>
      exists i :: 0 <= i < |groups| && groups[i] == MlmeGroup(groups).value && groups[i].name == MlmeGroupName &&
        forall j :: i < j < |groups| ==> groups[j].name != MlmeGroupName
  {
    var byName := IndexBy(groups, GroupName);
    if MlmeGroupName in byName {
      var i :| 0 <= i < |groups| && GroupName(groups[i]) == MlmeGroupName;
      while exists j :: i < j < |groups| && groups[j].name == MlmeGroupName
        invariant 0 <= i < |groups| && groups[i].name == MlmeGroupName
        decreases |groups| - i
      {
        var k :| i < k < |groups| && groups[k].name == MlmeGroupName;
        i := k;
      }
      IndexByLastWins(groups, GroupName, i);
    } else {
      forall i | 0 <= i < |groups| ensures groups[i].name != MlmeGroupName {
        assert GroupName(groups[i]) in byName.Keys;
      }
    }
  }

  /** The failure `Watch` reports before enumerating, if any: dial, family, mlme lookup, join. */
  function StartupError(dial: Option<Error>, family: Result<Family, Error>, join: Option<Error>): Option<Error>
  {
    if dial.Some? then dial
    else if family.Failure? then Some(family.error)
    else if MlmeGroup(family.value.groups).Failure? then Some(MlmeNotFound)
    else join
  }

  /** A family without an "mlme" group stops `Watch`, whatever the join would have done. */
  lemma StartupNeedsMlme(family: Family, join: Option<Error>)
    requires forall i :: 0 <= i < |family.groups| ==> family.groups[i].name != MlmeGroupName
    ensures StartupError(None, Success(family), join) == Some(MlmeNotFound)
  {
    MlmeGroupFound(family.groups);
  }

  // ---------------------------------------------------------------------
  // The tracker's state and its transitions
  // ---------------------------------------------------------------------

  /** Watched addresses, current stations and the values pushed on the monitor channel so far. */
  datatype State = State(watched: set<string>, current: set<string>, pushed: seq<bool>)

  /** The occupancy rule of this source: every watched address is associated. */
  function AllPresent(watched: set<string>, current: set<string>): (r: bool)
    ensures r <==> watched <= current
  {
    IntersectionFull(watched, current);
    |current * watched| == |watched|
  }

  lemma IntersectionFull(watched: set<string>, current: set<string>)
    ensures |current * watched| == |watched| <==> watched <= current
  {
    if watched <= current {
      assert current * watched == watched;
    } else {
      var x :| x in watched && x !in current;
      assert x in watched - current * watched;
      assert |watched - current * watched| == |watched| - |current * watched|;
    }
  }

  /** Recompute occupancy on the current state and push it. */
  function Push(s: State): State
  {
    s.(pushed := s.pushed + [AllPresent(s.watched, s.current)])
  }

  /** The station an add/remove notification names; an undecodable payload names "". */
  function EventStation(msg: Message): string
  {
    match AttributeMap(msg.attributes)
    case Failure(_) => StationName(map[])
    case Success(attrs) => StationName(attrs)
  }

  /** A notification whose payload does not decode names the empty string; the error is dropped. */
  lemma EventDecodeFailEmpty(msg: Message)
    requires msg.attributes.Failure?
    ensures EventStation(msg) == ""
  {
  }

  /** One received message: remove or add its station and push, or ignore it. */
  function OnMessage(s: State, msg: Message): State
  {
    if msg.command == CmdDelStation then Push(s.(current := s.current - {EventStation(msg)}))
    else if msg.command == CmdNewStation then Push(s.(current := s.current + {EventStation(msg)}))
    else s
  }

  /** The messages of one receive, handled in order. */
  function Replay(s: State, msgs: seq<Message>): State
  {
    if msgs == [] then s else OnMessage(Replay(s, msgs[..|msgs| - 1]), msgs[|msgs| - 1])
  }

  /** One receive: a failed receive delivers no messages. */
  function OnReceive(s: State, received: Result<seq<Message>, Error>): State
  {
    match received
    case Failure(_) => s
    case Success(msgs) => Replay(s, msgs)
  }

  /** One poll tick: a successful enumeration replaces the station set and pushes; a failed one is skipped. */
  function OnTick(s: State, replies: Replies): State
  {
    match AllStations(replies)
    case Failure(_) => s
    case Success(names) => Push(s.(current := SetOf(names)))
  }

  /** The last value on the channel is the occupancy of the current state. */
  predicate Consistent(s: State)
  {
    s.pushed != [] ==> s.pushed[|s.pushed| - 1] == AllPresent(s.watched, s.current)
  }

  predicate IsStationEvent(msg: Message)
  {
    msg.command == CmdDelStation || msg.command == CmdNewStation
  }

  /** The number of add/remove notifications among `msgs`. */
  function StationEvents(msgs: seq<Message>): nat
  {
    if msgs == [] then 0
    else StationEvents(msgs[..|msgs| - 1]) + (if IsStationEvent(msgs[|msgs| - 1]) then 1 else 0)
  }

  /**
   * A removal notification leaves the station set without that station,
   * leaves the watched set alone and pushes exactly one value, the
   * occupancy of the new state.
   */
  lemma DelStationEffect(s: State, msg: Message)
    requires msg.command == CmdDelStation
    ensures OnMessage(s, msg).watched == s.watched
    ensures OnMessage(s, msg).current == s.current - {EventStation(msg)}
    ensures |OnMessage(s, msg).pushed| == |s.pushed| + 1
    ensures OnMessage(s, msg).pushed[..|s.pushed|] == s.pushed
    ensures Consistent(OnMessage(s, msg))
  {
    assert OnMessage(s, msg).pushed[..|s.pushed|] == s.pushed;
  }

  /** An addition mirrors a removal, and adding a present station changes nothing but the push. */
  lemma NewStationEffect(s: State, msg: Message)
    requires msg.command == CmdNewStation
    ensures OnMessage(s, msg).watched == s.watched
    ensures OnMessage(s, msg).current == s.current + {EventStation(msg)}
    ensures |OnMessage(s, msg).pushed| == |s.pushed| + 1
    ensures OnMessage(s, msg).pushed[..|s.pushed|] == s.pushed
    ensures Consistent(OnMessage(s, msg))
    ensures EventStation(msg) in s.current ==> OnMessage(s, msg).current == s.current
  {
    assert OnMessage(s, msg).pushed[..|s.pushed|] == s.pushed;
  }

  /** Handling the same addition twice yields the same station set and pushes the same value twice. */
  lemma NewStationIdempotent(s: State, msg: Message)
    requires msg.command == CmdNewStation
    ensures OnMessage(OnMessage(s, msg), msg).current == OnMessage(s, msg).current
    ensures var p := OnMessage(OnMessage(s, msg), msg).pushed;
      |p| == |s.pushed| + 2 && p[|p| - 1] == p[|p| - 2]
  {
  }

  /** Any other command changes nothing and pushes nothing. */
  lemma OtherCommandIgnored(s: State, msg: Message)
    requires !IsStationEvent(msg)
    ensures OnMessage(s, msg) == s
  {
  }

  /** Removing a watched station always reports "not occupied". */
  lemma DelWatchedStation(s: State, msg: Message)
    requires msg.command == CmdDelStation && EventStation(msg) in s.watched
    ensures !OnMessage(s, msg).pushed[|OnMessage(s, msg).pushed| - 1]
  {
  }

  /**
   * A receive changes only the station set and pushes one value per
   * add/remove notification; afterwards the channel's last value is again
   * the occupancy of the current state.
   */
  lemma {:induction false} ReplayEffect(s: State, msgs: seq<Message>)
    requires Consistent(s)
    ensures Replay(s, msgs).watched == s.watched
    ensures |Replay(s, msgs).pushed| == |s.pushed| + StationEvents(msgs)
    ensures Replay(s, msgs).pushed[..|s.pushed|] == s.pushed
    ensures Consistent(Replay(s, msgs))
  {
    if msgs != [] {
      var init := msgs[..|msgs| - 1];
      ReplayEffect(s, init);
      var t := Replay(s, init);
      var u := OnMessage(t, msgs[|msgs| - 1]);
      if IsStationEvent(msgs[|msgs| - 1]) {
        assert u.pushed == t.pushed + [AllPresent(u.watched, u.current)];
        assert u.pushed[..|s.pushed|] == t.pushed[..|s.pushed|];
      }
    }
  }

  /** A receive without add/remove notifications leaves the state exactly as it was. */
  lemma {:induction false} ReplayQuiet(s: State, msgs: seq<Message>)
    requires forall i :: 0 <= i < |msgs| ==> !IsStationEvent(msgs[i])
    ensures Replay(s, msgs) == s
  {
    if msgs != [] {
      ReplayQuiet(s, msgs[..|msgs| - 1]);
    }
  }

  /**
   * Reconciliation: after a successful tick the station set is exactly the
   * enumerated addresses, whatever notifications came before; a failed tick
   * changes nothing.
   */
  lemma TickEffect(s: State, replies: Replies)
    ensures AllStations(replies).Success? ==>
      OnTick(s, replies).watched == s.watched &&
      (forall m :: m in OnTick(s, replies).current <==> m in AllStations(replies).value) &&
      OnTick(s, replies).pushed == s.pushed + [AllPresent(s.watched, OnTick(s, replies).current)]
    ensures AllStations(replies).Failure? ==> OnTick(s, replies) == s
    ensures Consistent(s) ==> Consistent(OnTick(s, replies))
  {
  }

  /** Seeding the station set in `Watch` is the same transition as a successful poll tick. */
  lemma WatchIsTick(s: State, replies: Replies)
    requires AllStations(replies).Success?
    ensures Push(s.(current := SetOf(AllStations(replies).value))) == OnTick(s, replies)
  {
  }

  /** Two states that agree on the watched set agree after the same successful tick. */
  lemma TickForgetsHistory(s: State, t: State, replies: Replies)
    requires s.watched == t.watched && s.pushed == t.pushed && AllStations(replies).Success?
    ensures OnTick(s, replies) == OnTick(t, replies)
  {
  }

  /** A message whose only attribute is the MAC names that address, as an event and as a record. */
  lemma MacOnlyMessage(command: uint8, addr: seq<byte>)
    ensures EventStation(Message(command, Success([Attribute(AttrMac, addr)]))) == MacString(addr)
    ensures RecordName(Message(command, Success([Attribute(AttrMac, addr)]))) == Success([MacString(addr)])
  {
    var attrs := [Attribute(AttrMac, addr)];
    assert attrs[..0] == [];
    assert IndexBy(attrs, AttrType) == map[AttrMac := Attribute(AttrMac, addr)];
  }

  /**
   * A watched station that disconnects and reconnects without the second
   * notification: seeding pushes "occupied", the removal pushes "not
   * occupied" and the next successful tick restores "occupied" on its own.
   */
  lemma MissedNotificationRecovered(addr: seq<byte>)
    ensures var record := Message(CmdNewStation, Success([Attribute(AttrMac, addr)]));
      var replies := Replies(Success(Family(0x1c, 1, [MulticastGroup(5, MlmeGroupName)])),
                             Success([InterfaceDump(Message(7, Success([])), Success([record]))]));
      var seeded := OnTick(State({MacString(addr)}, {}, []), replies);
      var removed := OnMessage(seeded, Message(CmdDelStation, Success([Attribute(AttrMac, addr)])));
      seeded.pushed == [true] && removed.pushed == [true, false] &&
      OnTick(removed, replies).pushed == [true, false, true]
  {
    var mac := MacString(addr);
    MacOnlyMessage(CmdNewStation, addr);
    MacOnlyMessage(CmdDelStation, addr);
    var record := Message(CmdNewStation, Success([Attribute(AttrMac, addr)]));
    assert [record][..0] == [];
    assert StationNames([record]) == Success([] + [mac]);
    assert [] + [mac] == [mac];
    var iface := InterfaceDump(Message(7, Success([])), Success([record]));
    SingleInterface(iface);
    assert SetOf([mac]) == {mac};
  }

  // ---------------------------------------------------------------------
  // The presence source as an object
  // ---------------------------------------------------------------------

  class NetlinkPresence {
    var watchedSet: set<string>
    var currentSet: set<string>
    /** The values sent on the monitor channel, oldest first. */
    var monitor: seq<bool>

    function Model(): State
      reads this
    {
      State(watchedSet, currentSet, monitor)
    }

    constructor (addresses: set<string>)
      ensures Model() == State(addresses, {}, [])
    {
      watchedSet := addresses;
      currentSet := {};
      monitor := [];
    }

    /** The snapshot query: occupied exactly when every watched address is a current station. */
    function IsOccupied(): (r: bool)
      reads this
      ensures r <==> watchedSet <= currentSet
    {
      AllPresent(watchedSet, currentSet)
    }

    /** getMulticastGroups: the family's groups by name, the last one of a name winning. */
    static method GetMulticastGroups(groups: seq<MulticastGroup>) returns (byName: map<string, MulticastGroup>)
      ensures byName == IndexBy(groups, GroupName)
    {
      byName := map[];
      for i := 0 to |groups|
        invariant byName == IndexBy(groups[..i], GroupName)
      {
        assert groups[..i + 1][..i] == groups[..i];
        byName := byName[groups[i].name := groups[i]];
      }
      assert groups[..|groups|] == groups;
    }

    /** getAttributes: a decoder error is passed on; otherwise the attributes by type, the last one winning. */
    static method GetAttributes(decoded: Result<seq<Attribute>, Error>) returns (r: Result<map<uint16, Attribute>, Error>)
      ensures r == AttributeMap(decoded)
    {
      if decoded.Failure? {
        return Failure(decoded.error);
      }
      var attrs := decoded.value;
      var attributes: map<uint16, Attribute> := map[];
      for i := 0 to |attrs|
        invariant attributes == IndexBy(attrs[..i], AttrType)
      {
        assert attrs[..i + 1][..i] == attrs[..i];
        attributes := attributes[attrs[i].typ := attrs[i]];
      }
      assert attrs[..|attrs|] == attrs;
      return Success(attributes);
    }

    /** The inner loop of getAllStations: the names of one station dump, or the first decoder error. */
    static method GetStationNames(msgs: seq<Message>) returns (r: Result<seq<string>, Error>)
      ensures r == StationNames(msgs)
    {
      var stations: seq<string> := [];
      for j := 0 to |msgs|
        invariant StationNames(msgs[..j]) == Success(stations)
      {
        assert msgs[..j + 1][..j] == msgs[..j];
        assert StationNames(msgs[..j + 1]) == Chain(StationNames(msgs[..j]), RecordName(msgs[j]));
        var attrs := GetAttributes(msgs[j].attributes);
        if attrs.Failure? {
          StationNamesAbort(msgs, j + 1);
          return Failure(attrs.error);
        }
        stations := stations + [StationName(attrs.value)];
      }
      assert msgs[..|msgs|] == msgs;
      return Success(stations);
    }

    /** getAllStations: one name per station record, interface by interface, or the first error. */
    static method GetAllStations(replies: Replies) returns (r: Result<seq<string>, Error>)
      ensures r == AllStations(replies)
    {
      if replies.family.Failure? {
        return Failure(replies.family.error);
      }
      if replies.interfaces.Failure? {
        return Failure(replies.interfaces.error);
      }
      var ifaces := replies.interfaces.value;
      var stations: seq<string> := [];
      for i := 0 to |ifaces|
        invariant Enumerate(ifaces[..i]) == Success(stations)
      {
        assert ifaces[..i + 1] == ifaces[..i] + [ifaces[i]];
        EnumerateStep(ifaces[..i], ifaces[i]);
        if ifaces[i].stations.Failure? {
          EnumerateAbort(ifaces, i + 1);
          return Failure(ifaces[i].stations.error);
        }
        var names := GetStationNames(ifaces[i].stations.value);
        if names.Failure? {
          EnumerateAbort(ifaces, i + 1);
          return Failure(names.error);
        }
        stations := stations + names.value;
      }
      assert ifaces[..|ifaces|] == ifaces;
      return Success(stations);
    }

    /**
     * Watch: dial, find the family and its mlme group, join it, enumerate,
     * seed the station set and push the first value. Any failure is
     * returned and leaves the state as it was.
     */
    method Watch(dial: Option<Error>, family: Result<Family, Error>, join: Option<Error>, replies: Replies)
      returns (err: Option<Error>)
      modifies this
      ensures StartupError(dial, family, join).Some? ==> err == StartupError(dial, family, join) && Model() == old(Model())
      ensures StartupError(dial, family, join).None? && AllStations(replies).Failure? ==>
        err == Some(AllStations(replies).error) && Model() == old(Model())
      ensures StartupError(dial, family, join).None? && AllStations(replies).Success? ==>
        err == None && Model() == Push(old(Model()).(current := SetOf(AllStations(replies).value)))
    {
      if dial.Some? {
        return dial;
      }
      if family.Failure? {
        return Some(family.error);
      }
      var groups := GetMulticastGroups(family.value.groups);
      if MlmeGroupName !in groups {
        return Some(MlmeNotFound);
      }
      if join.Some? {
        return join;
      }
      var addresses := GetAllStations(replies);
      if addresses.Failure? {
        return Some(addresses.error);
      }
      var seeded := AddAll(addresses.value);
      currentSet := seeded;
      monitor := monitor + [IsOccupied()];
      return None;
    }

    /** The event switch of ReceivingNetlinkEvent for one message. */
    method HandleMessage(msg: Message)
      modifies this
      ensures Model() == OnMessage(old(Model()), msg)
    {
      if msg.command == CmdDelStation {
        var attrs := GetAttributes(msg.attributes);
        var station := StationName(if attrs.Success? then attrs.value else map[]);
        currentSet := currentSet - {station};
        monitor := monitor + [IsOccupied()];
      } else if msg.command == CmdNewStation {
        var attrs := GetAttributes(msg.attributes);
        var station := StationName(if attrs.Success? then attrs.value else map[]);
        currentSet := currentSet + {station};
        monitor := monitor + [IsOccupied()];
      }
    }

    /** One iteration of the receive loop: the messages of one receive, in order. */
    method Receive(received: Result<seq<Message>, Error>)
      modifies this
      ensures Model() == OnReceive(old(Model()), received)
    {
      if received.Failure? {
        return;
      }
      var messages := received.value;
      for i := 0 to |messages|
        invariant Model() == Replay(old(Model()), messages[..i])
      {
        assert messages[..i + 1][..i] == messages[..i];
        HandleMessage(messages[i]);
      }
      assert messages[..|messages|] == messages;
    }

    /** One tick of PollingStation. */
    method PollTick(replies: Replies)
      modifies this
      ensures Model() == OnTick(old(Model()), replies)
    {
      var addresses := GetAllStations(replies);
      if addresses.Failure? {
        return;
      }
      var polled := AddAll(addresses.value);
      currentSet := polled;
      monitor := monitor + [IsOccupied()];
    }
  }
}
