# Wi-Fi occupancy presence tracking, in Dafny

This project models the presence tracking of hkwifioccupancy. Two sources decide whether the
people behind a set of watched hardware addresses are home:

- **The netlink source** (`NetlinkSource`, from `netlink_presence.go`). It keeps the set of
  stations associated with the local access point. `Watch` seeds the set from a full nl80211
  enumeration. Each `NEW_STATION`/`DEL_STATION` notification then adds or removes one station. A
  poll tick replaces the set with a fresh enumeration. Every change pushes the new occupancy onto
  the monitor channel. Occupancy means **all** watched addresses are associated.
- **The file source** (`FileSource`, from `file_presence.go`). It splits a text file on `"\n"`,
  with no trimming, into a set of lines. Occupancy means **any** watched address is one of those
  lines. A file that cannot be read means "not occupied".

`Policies` compares the two rules. They disagree when nothing is watched, and also when only
some of the watched addresses are present. `Sets` models the golang-set operations both sources
use: building a set from a slice.

`NetlinkPresence` and `FilePresence` are classes. `NetlinkPresence`'s station set is updated in
place. `FilePresence`'s fields are set once at construction and only read afterwards. Each class
holds its monitor channel as a `seq<bool>` field with every value pushed so far. The netlink side's
methods are proved against pure transition functions on a `State` value:

- `OnMessage`: one notification;
- `Replay` and `OnReceive`: one receive;
- `OnTick`: one poll tick;
- `AllStations`: one enumeration.

The lemmas about these functions state the properties. Socket replies are inputs to the model:

- the family lookup;
- the interface dump;
- for each interface message, the reply to the station dump issued for it;
- for each message, the attribute list the netlink decoder yields (or the decoder's error).

Hardware addresses are rendered the way Go's `net.HardwareAddr.String` does it: lower-case hex
octets joined by `:`, and the empty string for no bytes. That rendering comes from Go's standard
library and is not part of this repository. It is reproduced here so that a missing MAC attribute
visibly becomes `""`.

Where the code and the design description differ, the model follows the code:

- A station record without a MAC attribute is not an error. A Go map lookup yields the zero
  attribute, so `""` is added to the enumeration (`netlink_presence.go:205`), added to or removed
  from the set by a notification (`netlink_presence.go:86-94`).
- A notification whose payload does not decode is not skipped. The decoder's error is discarded
  and the station named is `""`.
- Enumeration aborts on the first undecodable record, the first failed station dump or a failed
  interface dump, and returns no partial list.
- The file source is part of the model, not an external collaborator.

## Model

| member | source | states |
|---|---|---|
| `NetlinkSource.AllPresent` | netlink_presence.go:133-135 | the rule "current ∩ watched is as large as watched" holds exactly when watched ⊆ current; so an empty watched set is always occupied |
| `NetlinkSource.NetlinkPresence.IsOccupied` | netlink_presence.go:128-139 | the snapshot query is true exactly when every watched address is a current station |
| `NetlinkSource.NetlinkPresence.constructor` | netlink_presence.go:22-26 | a new source watches the given addresses, has no stations yet and has pushed nothing |
| `NetlinkSource.IndexBy` | netlink_presence.go:153-156 | the map a "key → element" loop builds has exactly the keys carried by the list's elements |
| `NetlinkSource.IndexByLastWins` | netlink_presence.go:153-156 | a key maps to the last list element that carries it (last write wins) |
| `NetlinkSource.IndexByEntry` | netlink_presence.go:143-145 | every map entry is an element of the list stored under its own key |
| `NetlinkSource.NetlinkPresence.GetMulticastGroups` | netlink_presence.go:141-147 | the loop yields the groups keyed by name, the last group of a name winning |
| `NetlinkSource.NetlinkPresence.GetAttributes` | netlink_presence.go:149-159 | a decoder error is passed on; otherwise the loop yields the attributes keyed by type, the last one winning |
| `NetlinkSource.MlmeGroupFound` | netlink_presence.go:43-47 | the "mlme" lookup fails with "mlme group is not found" exactly when no group has that name, and otherwise finds the last group of that name |
| `NetlinkSource.StartupNeedsMlme` | netlink_presence.go:44-46 | once dial and family lookup succeed, a family without an "mlme" group stops start-up with that error |
| `NetlinkSource.MacString` | netlink_presence.go:87 | an address renders to the empty string exactly when it has no bytes, and to 3n−1 characters for n bytes |
| `NetlinkSource.MacStringInjective` | netlink_presence.go:87 | distinct addresses render to distinct strings, so the string sets stand for sets of addresses |
| `NetlinkSource.MissingMacIsEmpty` | netlink_presence.go:86-87 | a record names `""` exactly when its MAC attribute is missing or empty; a missing attribute is not an error |
| `NetlinkSource.EventDecodeFailEmpty` | netlink_presence.go:86-87 | a notification whose payload does not decode names `""`: the decoder's error is discarded |
| `NetlinkSource.StationNamesShape` | netlink_presence.go:198-206 | a station dump succeeds exactly when every record decodes, and then gives one name per record, in record order |
| `NetlinkSource.StationNamesDecodes` | netlink_presence.go:198-203 | a station dump succeeds exactly when every record decodes |
| `NetlinkSource.StationNamesInOrder` | netlink_presence.go:198-206 | a successful station dump gives one name per record, in record order |
| `NetlinkSource.EnumerateSuccessIff` | netlink_presence.go:184-207 | an enumeration succeeds exactly when every interface's station dump succeeds and every record in it decodes |
| `NetlinkSource.EnumerateStep` | netlink_presence.go:184-207 | adding one more interface appends its names after the earlier ones, or reports the earlier error first |
| `NetlinkSource.NetlinkPresence.GetStationNames` | netlink_presence.go:198-206 | the inner loop returns one name per record of a station dump, in order, or the first decoder error with no partial list |
| `NetlinkSource.StationNamesAbort` | netlink_presence.go:199-203 | once a record fails to decode, the dump's result is that error, whatever follows it |
| `NetlinkSource.EnumerateAbort` | netlink_presence.go:193-196 | once an interface's station dump (or a record in it) fails, the enumeration's result is that error, with no partial list |
| `NetlinkSource.EnumerateConcat` | netlink_presence.go:184-207 | the enumeration of `a + b` is that of `a` followed by that of `b`; an error in `a` is reported before any in `b` |
| `NetlinkSource.SingleInterface` | netlink_presence.go:184-207 | one interface contributes exactly its own station dump's names or error |
| `NetlinkSource.NetlinkPresence.GetAllStations` | netlink_presence.go:161-210 | the nested loops return the family or interface-dump error, or `AllStations`: names ordered by interface then station, or the first error |
| `NetlinkSource.NetlinkPresence.Watch` | netlink_presence.go:28-73 | a dial, family, missing-mlme, join or enumeration failure is returned and changes nothing; on success the station set is exactly the enumerated names and one value, the new occupancy, is pushed |
| `NetlinkSource.DelStationEffect` | netlink_presence.go:85-90 | a removal leaves current = old − {station}, keeps watched, keeps earlier pushes and pushes exactly one value: the new occupancy |
| `NetlinkSource.NewStationEffect` | netlink_presence.go:91-96 | an addition leaves current = old ∪ {station}, keeps watched and pushes exactly the new occupancy; re-adding a present station leaves the set unchanged |
| `NetlinkSource.NewStationIdempotent` | netlink_presence.go:91-96 | handling the same addition twice gives the same station set and pushes the same value twice |
| `NetlinkSource.OtherCommandIgnored` | netlink_presence.go:84-97 | a message with any other command changes no state and pushes nothing |
| `NetlinkSource.DelWatchedStation` | netlink_presence.go:85-90 | removing a watched station always pushes "not occupied" |
| `NetlinkSource.NetlinkPresence.HandleMessage` | netlink_presence.go:83-97 | the event switch performs exactly the `OnMessage` transition |
| `NetlinkSource.ReplayEffect` | netlink_presence.go:82-99 | a receive keeps watched and earlier pushes, pushes one value per add/remove notification, and leaves the channel's last value equal to the current occupancy |
| `NetlinkSource.ReplayQuiet` | netlink_presence.go:82-99 | a receive without add/remove notifications leaves the state exactly as it was |
| `NetlinkSource.NetlinkPresence.Receive` | netlink_presence.go:76-100 | one receive: a receive error handles no messages; otherwise the messages are handled in order (`OnReceive`) |
| `NetlinkSource.TickEffect` | netlink_presence.go:112-125 | a successful tick makes the station set exactly the enumerated names (duplicates collapsed), keeps watched and pushes the new occupancy; a failed tick changes nothing and pushes nothing |
| `NetlinkSource.TickForgetsHistory` | netlink_presence.go:112-125 | after a successful tick the state no longer depends on the station set before it |
| `NetlinkSource.MissedNotificationRecovered` | netlink_presence.go:85-124 | for any watched address: seeding pushes true, its removal pushes false, and the next tick that finds it again pushes true without any notification |
| `NetlinkSource.WatchIsTick` | netlink_presence.go:60-66 | seeding the station set in `Watch` is the same transition as a successful poll tick (netlink_presence.go:118-124) |
| `NetlinkSource.MacOnlyMessage` | netlink_presence.go:86-94 | a message whose only attribute is the MAC names that address, both as a notification and as a station record |
| `NetlinkSource.NetlinkPresence.PollTick` | netlink_presence.go:112-125 | one tick of the poller performs exactly the `OnTick` transition |
| `Sets.AddAll` | netlink_presence.go:60-65 | building a set from a slice yields exactly the slice's elements |
| `FileSource.Split` | file_presence.go:55 | splitting always yields at least one piece (`""` for empty contents) |
| `FileSource.JoinSplit` | file_presence.go:55 | joining the pieces with `"\n"` gives back the contents exactly |
| `FileSource.SplitPieces` | file_presence.go:55 | no piece contains `"\n"`, and there is one more piece than the contents have newlines |
| `FileSource.SplitJoin` | file_presence.go:55 | splitting undoes joining for any non-empty list of newline-free pieces |
| `FileSource.TrailingNewline` | file_presence.go:55-59 | contents ending in `"\n"` contribute an extra `""` piece |
| `FileSource.CarriageReturnKept` | file_presence.go:55-59 | a `"\r"` is not trimmed: a newline-free line followed by `"\r\n"` gives the pieces "line + `\r`" and `""` |
| `FileSource.AnyPresent` | file_presence.go:61 | the rule "watched ∩ lines is non-empty" holds exactly when some watched address is a line |
| `FileSource.OccupancyFalseCases` | file_presence.go:49-61 | an unreadable file and an empty watched set both give "not occupied" |
| `FileSource.FilePresence.constructor` | file_presence.go:20-22 | a new source watches the given addresses and has pushed nothing |
| `FileSource.FilePresence.Lines` | file_presence.go:55-59 | the loop's set holds exactly the pieces of the split, untrimmed |
| `FileSource.FilePresence.IsOccupied` | file_presence.go:49-65 | true exactly when the file was read and some watched address equals one of its `"\n"`-separated pieces |
| `FileSource.FilePresence.Watch` | file_presence.go:24-47 | a setup failure is returned and nothing is pushed; otherwise exactly one value, the file's occupancy, is pushed before any change is handled |
| `FileSource.FilePresence.Written` | file_presence.go:40-43 | a change event pushes exactly one value, the occupancy of the file as read when the timer fires |
| `Policies.EmptyWatchedDisagree` | netlink_presence.go:131-135 | with nothing watched, the netlink rule says occupied and the file rule says not occupied |
| `Policies.AllImpliesAny` | netlink_presence.go:131-135 | for a non-empty watched set, ALL present implies ANY present |
| `Policies.SingleWatchedAgree` | file_presence.go:61 | with one watched address the two rules coincide |
| `Policies.PartialPresenceDisagree` | file_presence.go:61 | with one of two watched addresses present, ANY holds and ALL does not |
| `Policies.AgreeIff` | netlink_presence.go:131-135 | on a non-empty watched set the rules agree exactly when all or none of it is present |

## Left out

- Socket I/O is not modelled. This covers `genetlink.Dial`, `Family.Get`, `JoinGroup`, `Execute`
  and `Receive`. Their results are inputs to the model, so the requests sent are not modelled:
  their commands, version, dump flags, and the interface data used as a request body.
- `netlink.UnmarshalAttributes` is not modelled. It is a library whose source is not part of
  this repository, so its result for each message is an input.
- Concurrency is not modelled: the goroutines, `time.Tick` and `time.AfterFunc`, and the
  unsynchronised sharing of `currentSet` between them. Notifications and ticks are a sequence of
  steps applied one at a time.
- The endless receive and poll loops are modelled one iteration at a time (`Receive`,
  `PollTick`).
- `NetlinkSource.NetlinkPresence.Receive`: its input is a `Result`, so a failed receive carries
  no messages. The Go loop does not skip on error: it logs the error and then handles whatever
  messages came back. The two agree only because genetlink's `Receive` returns no messages
  together with an error. The model builds in that library convention.
- The poller's own `genetlink.Dial` is not modelled. When it fails, the poller never runs.
- The monitor channel is an unbounded sequence. Blocking on a full channel is not modelled.
- `NetlinkSource.NetlinkPresence.constructor`: it starts with an empty station set. In Go the
  field is a nil set until `Watch` seeds it, and querying it before then would panic.
- The watched set is aliased with the set the accessory holds. Changes through `AddAddress` and
  `RemoveAddress` (accessory.go) are not modelled.
- For the file source, the file path, `os.Stat`/`os.Create` and `notify.Watch` are left out.
  Their combined outcome is the `setup` input of `Watch`. Each read's outcome is an
  `Option<string>` input. The one-second delay before each push is left out. Like the code, the
  model pushes once per change event (`Written`); nothing is coalesced.
- accessory.go (the HomeKit sensor) and all logging are left out.
