/**
 * The two presence sources decide occupancy differently: the netlink
 * source requires ALL watched addresses to be associated, the file source
 * ANY of them. These lemmas state where the two rules agree and differ.
 */
module Policies {
  import NetlinkSource
  import FileSource

  /** With nothing watched, the netlink source reports occupied and the file source does not. */
  lemma EmptyWatchedDisagree(present: set<string>)
    ensures NetlinkSource.AllPresent({}, present)
    ensures !FileSource.AnyPresent({}, present)
  {
  }

  /** Otherwise ALL implies ANY. */
  lemma AllImpliesAny(watched: set<string>, present: set<string>)
    requires watched != {}
    ensures NetlinkSource.AllPresent(watched, present) ==> FileSource.AnyPresent(watched, present)
  {
    var a :| a in watched;
    if NetlinkSource.AllPresent(watched, present) {
      assert a in present;
    }
  }

  /** For a single watched address the two rules coincide. */
  lemma SingleWatchedAgree(a: string, present: set<string>)
    ensures NetlinkSource.AllPresent({a}, present) == FileSource.AnyPresent({a}, present)
  {
    if FileSource.AnyPresent({a}, present) {
      var b :| b in {a} && b in present;
    }
  }

  /** With two watched addresses of which only one is present, ANY holds and ALL does not. */
  lemma PartialPresenceDisagree(a: string, b: string, present: set<string>)
    requires a != b && a in present && b !in present
    ensures !NetlinkSource.AllPresent({a, b}, present)
    ensures FileSource.AnyPresent({a, b}, present)
  {
    assert a in {a, b} && a in present;
  }

  /** The two rules agree on a non-empty watched set exactly when all or none of it is present. */
  lemma AgreeIff(watched: set<string>, present: set<string>)
    requires watched != {}
    ensures NetlinkSource.AllPresent(watched, present) == FileSource.AnyPresent(watched, present)
      <==> watched <= present || watched !! present
  {
    if watched <= present {
      AllImpliesAny(watched, present);
    } else if watched !! present {
    } else {
      var a :| a in watched && a in present;
      assert FileSource.AnyPresent(watched, present);
    }
  }
}
