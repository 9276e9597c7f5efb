/** The daemon and the fetcher together: no configuration change falls between two windows. */
module Delivery {
  import opened Wrappers
  import opened UpdateManager
  import D = UmDaemon
  import Text

  /** The alert daemon's answers to one window, asked when the window ends. */
  type Alertd = (int, int) -> seq<Item>

  /** It answers with the item whenever the window has the instant of the change and ends at least
      `lag` seconds after it, when the change can be seen. */
  ghost predicate Reports(alertd: Alertd, item: Item, changed: int, lag: nat) {
    forall fromTime, toTime :: fromTime <= changed && changed + lag <= toTime ==> item in alertd(fromTime, toTime)
  }

  /** One fetch saw the item, after any other fetches of the same module load: the version kept under
      the host's key is at least the item's, and the host's install.conf has the item's line. */
  ghost predicate Delivered(tmp: string, before: seq<seq<Item>>, items: seq<Item>, item: Item, h: Host)
    requires item.fullPath.Some? && item.configVersion.Some?
  {
    var s := FetchAll(tmp, before + [items]);
    && KeyOf(h) in s.versions && item.configVersion.value <= s.versions[KeyOf(h)]
    && CopyLine(item.fullPath.value) in LinesOf(items, h)
    && Content(s.files, ConfPath(tmp, h)) == Some(HEADER + Text.Concat(LinesOf(items, h)))
  }

  lemma {:induction false} ItemSeen(items: seq<Item>, item: Item, h: Host)
    requires item in items && Counts(item, h)
    ensures item.configVersion.value in VersionsOf(items, h) && CopyLine(item.fullPath.value) in LinesOf(items, h)
  {
    var init, last := items[..|items| - 1], items[|items| - 1];
    if item != last {
      var i :| 0 <= i < |items| && items[i] == item;
      assert init[i] == item;
      ItemSeen(init, item, h);
    }
  }

  lemma LastFetch(tmp: string, before: seq<seq<Item>>, items: seq<Item>)
    ensures AllItems(before + [items]) == AllItems(before) + items
    ensures FetchAll(tmp, before + [items]) == Fetch(tmp, FetchAll(tmp, before), items)
  {
    assert (before + [items])[..|before|] == before;
  }

  lemma VersionKept(tmp: string, before: seq<seq<Item>>, items: seq<Item>, item: Item, h: Host)
    requires item in items && Counts(item, h)
    ensures var s := FetchAll(tmp, before + [items]);
            KeyOf(h) in s.versions && item.configVersion.value <= s.versions[KeyOf(h)]
  {
    var all, version: int := AllItems(before) + items, item.configVersion.value;
    LastFetch(tmp, before, items);
    ItemSeen(all, item, h);
    assert version in VersionsOf(all, h);
    OwnAmongUnder(all, h);
    assert version in VersionsUnder(all, KeyOf(h));
    KeysFold(tmp, before + [items], KeyOf(h));
  }

  /** The lists are not replaced by configuration files of the host named install.conf. */
  ghost predicate ListsKept(items: seq<Item>, h: Host) {
    CleanPaths(items) && forall i :: i in items ==> !Overwrites(i, h)
  }

  lemma {:induction false} FetchDelivers(tmp: string, before: seq<seq<Item>>, items: seq<Item>, item: Item, h: Host)
    requires GoodTmp(tmp) && SingleNames(h) && ListsKept(items, h)
    requires item in items && Counts(item, h)
    ensures Delivered(tmp, before, items, item, h)
  {
    VersionKept(tmp, before, items, item, h);
    LastFetch(tmp, before, items);
    ItemSeen(items, item, h);
    InstallConfExact(tmp, FetchAll(tmp, before), items, h);
  }

  /** Every change visible at most 130 s after it happened, if it happened after the start (minus one
      day and 128 s) and was visible by the latest successful toTime, was delivered by one of the
      successful iterations, whatever failed, whether or not the module was reloaded before it. */
  lemma {:induction false} EveryChangeDelivered(tmp: string, now: int, iterations: seq<D.Iteration>, alertd: Alertd,
                                                item: Item, changed: int, lag: nat, h: Host)
    requires GoodTmp(tmp) && SingleNames(h) && forall f, t :: ListsKept(alertd(f, t), h)
    requires Counts(item, h) && Reports(alertd, item, changed, lag) && lag <= D.OVERLAP
    requires var ws := D.RunAll(now, iterations).windows;
             ws != [] && D.StartOf(now) <= changed && changed + lag <= D.Latest(ws)
    ensures exists w :: w in D.RunAll(now, iterations).windows &&
              forall before :: Delivered(tmp, before, alertd(w.fromTime, w.toTime), item, h)
  {
    var w := WindowOf(now, iterations, alertd, item, changed, lag);
    forall before ensures Delivered(tmp, before, alertd(w.fromTime, w.toTime), item, h) {
      FetchDelivers(tmp, before, alertd(w.fromTime, w.toTime), item, h);
    }
  }

  lemma WindowOf(now: int, iterations: seq<D.Iteration>, alertd: Alertd, item: Item, changed: int, lag: nat)
    returns (w: D.Window)
    requires Reports(alertd, item, changed, lag) && lag <= D.OVERLAP
    requires var ws := D.RunAll(now, iterations).windows;
             ws != [] && D.StartOf(now) <= changed && changed + lag <= D.Latest(ws)
    ensures w in D.RunAll(now, iterations).windows && item in alertd(w.fromTime, w.toTime)
  {
    var ws := D.RunAll(now, iterations).windows;
    D.NoLagGap(now, iterations, changed, lag);
    var k :| 0 <= k < |ws| && D.Spans(changed, lag, ws[k]);
    w := ws[k];
  }
}
