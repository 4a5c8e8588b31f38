/** For which feeds a polling miner is faithful in every run. Whatever can go wrong in a run of
    all commands on any indicators already goes wrong in polls of one indicator. */
module PollerFeeds {
  import opened Options
  import opened BasePoller
  import opened PollerTheorems
  import opened PollerFaithful

  // ---------- polls of one indicator ----------

  ghost predicate OneIndicator(items: seq<Item>, feed: iset<Attrs>) {
    forall k :: 0 <= k < |items| ==> items[k].indicator == "" && items[k].attrs in feed
  }

  /** Complete polls that list one and the same indicator, any number of times, and nothing else. */
  ghost predicate OnePolls(h: seq<Command>, feed: iset<Attrs>) {
    forall k :: 0 <= k < |h| ==>
      h[k].Attempt? && h[k].completes && h[k].lastrun == h[k].now && OneIndicator(h[k].items, feed)
  }

  /** In the middle of a poll at now, after the polls h. */
  function Midway(cfg: Config, clock: int, h: seq<Command>, now: int, items: seq<Item>): (State, bool) {
    var s := Run(cfg, EmptyTable(clock), h);
    ProcessItems(cfg, s.(polled := now, clock := now), now, Threshold(cfg, s, now), items)
  }

  function MidThreshold(cfg: Config, clock: int, h: seq<Command>, now: int): int {
    Threshold(cfg, Run(cfg, EmptyTable(clock), h), now)
  }

  ghost predicate Possible(cfg: Config, feed: iset<Attrs>, clock: int, h: seq<Command>, now: int, items: seq<Item>) {
    && OnePolls(h, feed) && OneIndicator(items, feed) && Regular(cfg, EmptyTable(clock), h)
    && Run(cfg, EmptyTable(clock), h).clock == Run(cfg, EmptyTable(clock), h).polled < now
  }

  /** Polls of one indicator in which one more listing spoils the view. */
  ghost predicate Spoilable(cfg: Config, feed: iset<Attrs>, clock: int,
                            h: seq<Command>, now: int, items: seq<Item>, item: Item) {
    && Possible(cfg, feed, clock, h, now, items) && item.indicator == "" && item.attrs in feed
    && Midway(cfg, clock, h, now, items).1
    && Spoils(cfg, Midway(cfg, clock, h, now, items).0, MidThreshold(cfg, clock, h, now), item)
  }

  /** No listing can spoil the view of a single indicator: neither one of the indicator while
      its row is absent or has left the feed, nor one that is merged into a row which
      the feed can produce. */
  ghost predicate SoundFeed(cfg: Config, feed: iset<Attrs>, clock: int) {
    forall h, now, items, item :: !Spoilable(cfg, feed, clock, h, now, items, item)
  }

  ghost predicate AlwaysFaithful(cfg: Config, feed: iset<Attrs>, clock: int) {
    forall cs :: Regular(cfg, EmptyTable(clock), cs) && FromFeed(cs, feed) ==>
      Faithful(Run(cfg, EmptyTable(clock), cs))
  }

  // ---------- a feed that is not sound spoils a run ----------

  lemma {:induction false} RunSnoc(cfg: Config, s: State, h: seq<Command>, c: Command)
    ensures Run(cfg, s, h + [c]) == Apply(cfg, Run(cfg, s, h), c)
    decreases |h|
  {
    if h == [] {
      assert [c][1..] == [] && h + [c] == [c];
      assert Run(cfg, Apply(cfg, s, c), []) == Apply(cfg, s, c);
    } else {
      assert (h + [c])[1..] == h[1..] + [c];
      RunSnoc(cfg, Apply(cfg, s, h[0]), h[1..], c);
    }
  }

  lemma {:induction false} RegularSnoc(cfg: Config, s: State, h: seq<Command>, c: Command)
    requires Regular(cfg, s, h) && Timely(Run(cfg, s, h), c) && CleanRebuild(Run(cfg, s, h), c)
    ensures Regular(cfg, s, h + [c])
    decreases |h|
  {
    if h == [] {
      assert [c][1..] == [] && h + [c] == [c];
      assert Regular(cfg, Apply(cfg, s, c), []);
    } else {
      assert (h + [c])[1..] == h[1..] + [c];
      RegularSnoc(cfg, Apply(cfg, s, h[0]), h[1..], c);
    }
  }

  lemma {:induction false} ItemsSnoc(cfg: Config, s: State, now: int, threshold: int, items: seq<Item>, item: Item)
    requires ProcessItems(cfg, s, now, threshold, items).1
    ensures ProcessItems(cfg, s, now, threshold, items + [item]) ==
            ProcessItem(cfg, ProcessItems(cfg, s, now, threshold, items).0, now, threshold, item)
    decreases |items|
  {
    if items == [] {
      assert [item][1..] == [] && items + [item] == [item];
    } else {
      assert (items + [item])[1..] == items[1..] + [item];
      ItemsSnoc(cfg, ProcessItem(cfg, s, now, threshold, items[0]).0, now, threshold, items[1..], item);
    }
  }

  /** The run that ends with the poll in question. */
  lemma PollAfter(cfg: Config, feed: iset<Attrs>, clock: int, h: seq<Command>, now: int, items: seq<Item>)
    requires Possible(cfg, feed, clock, h, now, items)
    ensures var cs := h + [Attempt(now, now, items, true)];
            var (m, ok) := Midway(cfg, clock, h, now, items);
            && OnePolls(cs, feed) && FromFeed(cs, feed) && Regular(cfg, EmptyTable(clock), cs)
            && Run(cfg, EmptyTable(clock), cs) == if ok then m.(lastSuccess := Some(now)) else m
  {
    var s := Run(cfg, EmptyTable(clock), h);
    var poll := Attempt(now, now, items, true);
    RunSnoc(cfg, EmptyTable(clock), h, poll);
    RegularSnoc(cfg, EmptyTable(clock), h, poll);
  }

  lemma FaithfulIgnoresSuccess(s: State, l: Option<int>)
    ensures Faithful(s.(lastSuccess := l)) <==> Faithful(s)
  {
  }

  lemma SpoilableSpoils(cfg: Config, feed: iset<Attrs>, clock: int,
                        h: seq<Command>, now: int, items: seq<Item>, item: Item)
    requires clock >= 0 && Spoilable(cfg, feed, clock, h, now, items, item)
    ensures !AlwaysFaithful(cfg, feed, clock)
  {
    var m := Midway(cfg, clock, h, now, items).0;
    PollAfter(cfg, feed, clock, h, now, items);
    var before := h + [Attempt(now, now, items, true)];
    FaithfulIgnoresSuccess(m, Some(now));
    if AlwaysFaithful(cfg, feed, clock) {
      assert Faithful(Run(cfg, EmptyTable(clock), before));
      OneMoreSpoils(cfg, feed, clock, h, now, items, item);
      assert false;
    }
  }

  lemma OneMoreSpoils(cfg: Config, feed: iset<Attrs>, clock: int,
                      h: seq<Command>, now: int, items: seq<Item>, item: Item)
    requires clock >= 0 && Spoilable(cfg, feed, clock, h, now, items, item)
    requires Faithful(Midway(cfg, clock, h, now, items).0)
    ensures !AlwaysFaithful(cfg, feed, clock)
  {
    var (m, ok) := Midway(cfg, clock, h, now, items);
    var s := Run(cfg, EmptyTable(clock), h);
    var more := items + [item];
    NoOrphansEver(cfg, EmptyTable(clock), h);
    ItemsKeepInv(cfg, s.(polled := now, clock := now), MidThreshold(cfg, clock, h, now), items);
    ItemFaithfulExactly(cfg, m, MidThreshold(cfg, clock, h, now), item);
    ItemsSnoc(cfg, s.(polled := now, clock := now), now, MidThreshold(cfg, clock, h, now), items, item);
    assert Possible(cfg, feed, clock, h, now, more);
    PollAfter(cfg, feed, clock, h, now, more);
    FaithfulIgnoresSuccess(Midway(cfg, clock, h, now, more).0, Some(now));
    assert !Faithful(Run(cfg, EmptyTable(clock), h + [Attempt(now, now, more, true)]));
  }

  // ---------- a run that is spoilt spoils polls of one indicator ----------

  /** Polls of one indicator that end with this very row. In the middle of a poll at s.polled
      (open), the rows it has stamped were stamped without anything raising. */
  ghost predicate Traces(cfg: Config, feed: iset<Attrs>, clock: int, s: State, r: Row, open: bool,
                         h: seq<Command>, items: seq<Item>) {
    && Possible(cfg, feed, clock, h, r.lastRun, items)
    && var (m, ok) := Midway(cfg, clock, h, r.lastRun, items);
       var success := Run(cfg, EmptyTable(clock), h).lastSuccess.Some?;
       && "" in m.table && m.table[""] == r
       && (open && r.lastRun == s.polled ==> ok && (s.lastSuccess.Some? ==> success))
       && (s.lastSuccess.Some? && s.lastSuccess.value <= r.lastRun ==> ok || success)
  }

  ghost predicate Traced(cfg: Config, feed: iset<Attrs>, clock: int, s: State, r: Row, open: bool) {
    exists h, items :: Traces(cfg, feed, clock, s, r, open, h, items)
  }

  /** Every row that a listing could still be merged into is traced. */
  ghost predicate AllTraced(cfg: Config, feed: iset<Attrs>, clock: int, s: State, open: bool) {
    forall i :: i in s.table && s.table[i].withdrawn.None? && s.table[i].ageOut >= s.clock ==>
      Traced(cfg, feed, clock, s, s.table[i], open)
  }

  /** Polls of one indicator about to list it again, with this row and at this time. */
  ghost predicate Ready(cfg: Config, feed: iset<Attrs>, clock: int, s: State, r: Row,
                        h: seq<Command>, items: seq<Item>) {
    && Possible(cfg, feed, clock, h, s.clock, items)
    && var (m, ok) := Midway(cfg, clock, h, s.clock, items);
       && ok && "" in m.table && m.table[""] == r
       && r.lastRun >= MidThreshold(cfg, clock, h, s.clock)
       && (s.lastSuccess.Some? ==> Run(cfg, EmptyTable(clock), h).lastSuccess.Some?)
  }

  lemma AfterOnePolls(cfg: Config, feed: iset<Attrs>, clock: int, h: seq<Command>)
    requires clock >= 0 && OnePolls(h, feed) && Regular(cfg, EmptyTable(clock), h)
    ensures var s := Run(cfg, EmptyTable(clock), h);
            Inv(s) && (s.lastSuccess.Some? ==> s.lastSuccess.value <= s.polled)
  {
    NoOrphansEver(cfg, EmptyTable(clock), h);
  }

  /** The row was stamped in the poll that is under way. */
  lemma ReadyInSamePoll(cfg: Config, feed: iset<Attrs>, clock: int, s: State, r: Row,
                        h: seq<Command>, items: seq<Item>)
    requires clock >= 0 && cfg.interval >= 0 && s.polled == s.clock == r.lastRun
    requires Traces(cfg, feed, clock, s, r, true, h, items)
    ensures Ready(cfg, feed, clock, s, r, h, items)
  {
    AfterOnePolls(cfg, feed, clock, h);
  }

  /** The row was stamped before, and is still in the feed. */
  lemma ReadyInNextPoll(cfg: Config, feed: iset<Attrs>, clock: int, s: State, r: Row,
                        h: seq<Command>, items: seq<Item>)
    requires clock >= 0 && cfg.interval >= 0 && s.polled == s.clock > r.lastRun
    requires r.lastRun >= Threshold(cfg, s, s.clock)
    requires Traces(cfg, feed, clock, s, r, true, h, items)
    ensures Ready(cfg, feed, clock, s, r, h + [Attempt(r.lastRun, r.lastRun, items, true)], [])
  {
    AfterOnePolls(cfg, feed, clock, h);
    PollAfter(cfg, feed, clock, h, r.lastRun, items);
    var s0 := Run(cfg, EmptyTable(clock), h);
    ItemsKeepInv(cfg, s0.(polled := r.lastRun, clock := r.lastRun), MidThreshold(cfg, clock, h, r.lastRun), items);
  }

  lemma GetsReady(cfg: Config, feed: iset<Attrs>, clock: int, s: State, i: string)
    returns (h: seq<Command>, items: seq<Item>)
    requires clock >= 0 && cfg.interval >= 0 && Inv(s) && s.polled == s.clock && i in s.table
    requires AllTraced(cfg, feed, clock, s, true)
    requires s.table[i].withdrawn.None? && s.table[i].ageOut >= s.clock
    requires s.table[i].lastRun >= Threshold(cfg, s, s.clock)
    ensures Ready(cfg, feed, clock, s, s.table[i], h, items)
  {
    var r := s.table[i];
    h, items :| Traces(cfg, feed, clock, s, r, true, h, items);
    if r.lastRun == s.clock {
      ReadyInSamePoll(cfg, feed, clock, s, r, h, items);
    } else {
      ReadyInNextPoll(cfg, feed, clock, s, r, h, items);
      h, items := h + [Attempt(r.lastRun, r.lastRun, items, true)], [];
    }
  }

  function One(item: Item): Item { item.(indicator := "") }

  /** The one indicator's row goes the way of row i. */
  lemma SameRefresh(cfg: Config, s: State, m: State, threshold: int, threshold': int, item: Item)
    requires s.clock == m.clock && item.indicator in s.table && "" in m.table
    requires m.table[""] == s.table[item.indicator]
    requires StatusOf(s.table, item.indicator, s.clock, threshold) == Known(true, false, false)
    requires s.table[item.indicator].lastRun >= threshold'
    ensures var (t, ok) := ProcessItem(cfg, s, s.clock, threshold, item);
            var (n, ok') := ProcessItem(cfg, m, s.clock, threshold', One(item));
            && ok' == ok && item.indicator in t.table && "" in n.table && n.table[""] == t.table[item.indicator]
            && (t.table[item.indicator] == s.table[item.indicator] || t.table[item.indicator].lastRun == s.clock)
    ensures Spoils(cfg, s, threshold, item) <==> Spoils(cfg, m, threshold', One(item))
  {
    assert MergeOf(cfg, m.table[""].attrs, One(item)) == MergeOf(cfg, s.table[item.indicator].attrs, item);
  }

  /** A listing merged into a traced row: it spoils nothing, and the row stays traced. */
  lemma RefreshTraced(cfg: Config, feed: iset<Attrs>, clock: int, s: State, item: Item)
    requires clock >= 0 && cfg.interval >= 0 && SoundFeed(cfg, feed, clock) && item.attrs in feed
    requires Inv(s) && s.polled == s.clock && AllTraced(cfg, feed, clock, s, true)
    requires StatusOf(s.table, item.indicator, s.clock, Threshold(cfg, s, s.clock)) == Known(true, false, false)
    ensures !Spoils(cfg, s, Threshold(cfg, s, s.clock), item)
    ensures var (t, ok) := ProcessItem(cfg, s, s.clock, Threshold(cfg, s, s.clock), item);
            item.indicator in t.table && SameTimes(s, t) &&
            Traced(cfg, feed, clock, t, t.table[item.indicator], ok)
  {
    var i, threshold := item.indicator, Threshold(cfg, s, s.clock);
    var h, items := GetsReady(cfg, feed, clock, s, i);
    var m := Midway(cfg, clock, h, s.clock, items).0;
    MidwayTimes(cfg, feed, clock, h, s.clock, items);
    SameRefresh(cfg, s, m, threshold, MidThreshold(cfg, clock, h, s.clock), item);
    assert !Spoilable(cfg, feed, clock, h, s.clock, items, One(item));
    ItemKeepsInv(cfg, s, threshold, item);
    var (t, ok) := ProcessItem(cfg, s, s.clock, threshold, item);
    if t.table[i].lastRun == s.clock {
      ListedAgain(cfg, feed, clock, s, t, ok, item, h, items);
    } else {
      SameRowTraced(cfg, feed, clock, s, t, t.table[i], ok);
    }
  }

  lemma MidwayTimes(cfg: Config, feed: iset<Attrs>, clock: int, h: seq<Command>, now: int, items: seq<Item>)
    requires clock >= 0 && Possible(cfg, feed, clock, h, now, items)
    ensures var m := Midway(cfg, clock, h, now, items).0;
            Inv(m) && m.polled == m.clock == now && m.lastSuccess == Run(cfg, EmptyTable(clock), h).lastSuccess
  {
    AfterOnePolls(cfg, feed, clock, h);
    var s0 := Run(cfg, EmptyTable(clock), h);
    ItemsKeepInv(cfg, s0.(polled := now, clock := now), MidThreshold(cfg, clock, h, now), items);
  }

  lemma ListedAgain(cfg: Config, feed: iset<Attrs>, clock: int, s: State, t: State, ok: bool, item: Item,
                    h: seq<Command>, items: seq<Item>)
    requires clock >= 0 && item.attrs in feed && s.polled == s.clock && SameTimes(s, t)
    requires Possible(cfg, feed, clock, h, s.clock, items) && Midway(cfg, clock, h, s.clock, items).1
    requires s.lastSuccess.Some? ==> Run(cfg, EmptyTable(clock), h).lastSuccess.Some?
    requires item.indicator in t.table && t.table[item.indicator].lastRun == s.clock
    requires var m := Midway(cfg, clock, h, s.clock, items).0;
             var (n, ok') := ProcessItem(cfg, m, s.clock, MidThreshold(cfg, clock, h, s.clock), One(item));
             ok' == ok && "" in n.table && n.table[""] == t.table[item.indicator]
    ensures Traced(cfg, feed, clock, t, t.table[item.indicator], ok)
  {
    var s0 := Run(cfg, EmptyTable(clock), h);
    ItemsSnoc(cfg, s0.(polled := s.clock, clock := s.clock), s.clock, MidThreshold(cfg, clock, h, s.clock), items,
        One(item));
    assert Traces(cfg, feed, clock, t, t.table[item.indicator], ok, h, items + [One(item)]);
  }

  lemma SameRowTraced(cfg: Config, feed: iset<Attrs>, clock: int, s: State, t: State, r: Row, open: bool)
    requires Traced(cfg, feed, clock, s, r, true) && SameTimes(s, t)
    ensures Traced(cfg, feed, clock, t, r, open)
  {
    var h, items :| Traces(cfg, feed, clock, s, r, true, h, items);
    assert Traces(cfg, feed, clock, t, r, open, h, items);
  }

  // ---------- listings that enter a row ----------

  /** The latest success, if any, lies between the start and this poll. */
  ghost predicate SuccessBefore(s: State, clock: int) {
    s.lastSuccess.Some? ==> clock < s.lastSuccess.value < s.polled
  }

  /** A poll of the one indicator that finds nothing stored, after an empty poll if there has been a success. */
  lemma StartsFresh(cfg: Config, feed: iset<Attrs>, clock: int, s: State) returns (h: seq<Command>)
    requires clock >= 0 && s.polled == s.clock > clock && SuccessBefore(s, clock)
    ensures Possible(cfg, feed, clock, h, s.clock, [])
    ensures var m := Midway(cfg, clock, h, s.clock, []).0; m.table == map[] && m.view == map[]
    ensures s.lastSuccess.Some? ==> Run(cfg, EmptyTable(clock), h).lastSuccess.Some?
  {
    if s.lastSuccess.None? {
      h := [];
    } else {
      var l := s.lastSuccess.value;
      var nothing: seq<Command> := [];
      assert Possible(cfg, feed, clock, nothing, l, []);
      PollAfter(cfg, feed, clock, nothing, l, []);
      h := nothing + [Attempt(l, l, [], true)];
    }
  }

  lemma SameEnter(cfg: Config, s: State, m: State, item: Item)
    requires s.clock == m.clock && m.table == map[] && m.view == map[]
    ensures var (t, ok) := Enter(cfg, s, s.clock, item);
            var (n, ok') := Enter(cfg, m, s.clock, One(item));
            && ok' == ok
            && (CalcAgeOut(cfg, FreshAttrs(cfg, item.attrs, s.clock)).Some? ==>
                  && item.indicator in t.table && t.table[item.indicator].lastRun == s.clock
                  && "" in n.table && n.table[""] == t.table[item.indicator])
            && (CalcAgeOut(cfg, FreshAttrs(cfg, item.attrs, s.clock)).None? ==> t == s)
  {
  }

  lemma EnterTraced(cfg: Config, feed: iset<Attrs>, clock: int, s: State, item: Item)
    requires clock >= 0 && SoundFeed(cfg, feed, clock) && item.attrs in feed
    requires Inv(s) && s.polled == s.clock > clock && SuccessBefore(s, clock)
    ensures !Unannounceable(cfg, item.attrs, s.clock)
    ensures var (t, ok) := Enter(cfg, s, s.clock, item);
            CalcAgeOut(cfg, FreshAttrs(cfg, item.attrs, s.clock)).Some? ==>
              item.indicator in t.table && Traced(cfg, feed, clock, t, t.table[item.indicator], ok)
  {
    var h := StartsFresh(cfg, feed, clock, s);
    var m := Midway(cfg, clock, h, s.clock, []).0;
    MidwayTimes(cfg, feed, clock, h, s.clock, []);
    assert !Spoilable(cfg, feed, clock, h, s.clock, [], One(item));
    assert ProcessItem(cfg, m, s.clock, MidThreshold(cfg, clock, h, s.clock), One(item)) ==
           Enter(cfg, m, s.clock, One(item));
    SameEnter(cfg, s, m, item);
    var (t, ok) := Enter(cfg, s, s.clock, item);
    if CalcAgeOut(cfg, FreshAttrs(cfg, item.attrs, s.clock)).Some? {
      ListedAgain(cfg, feed, clock, s, t, ok, item, h, []);
    }
  }

  // ---------- whole polls and whole runs ----------

  lemma OthersStayTraced(cfg: Config, feed: iset<Attrs>, clock: int, s: State, t: State, ok: bool, i: string)
    requires AllTraced(cfg, feed, clock, s, true) && SameTimes(s, t)
    requires forall j :: j in t.table && j != i ==> j in s.table && t.table[j] == s.table[j]
    requires i in t.table && t.table[i].withdrawn.None? && t.table[i].ageOut >= t.clock ==>
      Traced(cfg, feed, clock, t, t.table[i], ok)
    ensures AllTraced(cfg, feed, clock, t, ok)
  {
    forall j | j in t.table && t.table[j].withdrawn.None? && t.table[j].ageOut >= t.clock
      ensures Traced(cfg, feed, clock, t, t.table[j], ok)
    {
      if j != i {
        SameRowTraced(cfg, feed, clock, s, t, t.table[j], ok);
      }
    }
  }

  lemma ItemStaysTraced(cfg: Config, feed: iset<Attrs>, clock: int, s: State, item: Item)
    requires clock >= 0 && cfg.interval >= 0 && SoundFeed(cfg, feed, clock) && item.attrs in feed
    requires Inv(s) && s.polled == s.clock > clock && SuccessBefore(s, clock) && AllTraced(cfg, feed, clock, s, true)
    ensures !Spoils(cfg, s, Threshold(cfg, s, s.clock), item)
    ensures var (t, ok) := ProcessItem(cfg, s, s.clock, Threshold(cfg, s, s.clock), item);
            SameTimes(s, t) && AllTraced(cfg, feed, clock, t, ok)
  {
    var i, threshold := item.indicator, Threshold(cfg, s, s.clock);
    var status := StatusOf(s.table, i, s.clock, threshold);
    var (t, ok) := ProcessItem(cfg, s, s.clock, threshold, item);
    ItemKeepsInv(cfg, s, threshold, item);
    ItemStamps(cfg, s, s.clock, threshold, item);
    if status.NX? || !status.inFeed {
      EnterTraced(cfg, feed, clock, s, item);
      if t == s && i in s.table && s.table[i].withdrawn.None? && s.table[i].ageOut >= s.clock {
        SameRowTraced(cfg, feed, clock, s, t, t.table[i], ok);
      }
    } else if !status.marked && !status.aged {
      RefreshTraced(cfg, feed, clock, s, item);
    }
    OthersStayTraced(cfg, feed, clock, s, t, ok, i);
  }

  lemma {:induction false} ItemsStayFaithful(cfg: Config, feed: iset<Attrs>, clock: int, s: State, items: seq<Item>)
    requires clock >= 0 && cfg.interval >= 0 && SoundFeed(cfg, feed, clock) && AllFrom(items, feed)
    requires Inv(s) && s.polled == s.clock > clock && SuccessBefore(s, clock) && AllTraced(cfg, feed, clock, s, true)
    requires Faithful(s)
    ensures var (t, ok) := ProcessItems(cfg, s, s.clock, Threshold(cfg, s, s.clock), items);
            Faithful(t) && AllTraced(cfg, feed, clock, t, ok)
    decreases |items|
  {
    if items != [] {
      var threshold := Threshold(cfg, s, s.clock);
      var (t, ok) := ProcessItem(cfg, s, s.clock, threshold, items[0]);
      ItemStaysTraced(cfg, feed, clock, s, items[0]);
      ItemFaithfulExactly(cfg, s, threshold, items[0]);
      ItemKeepsInv(cfg, s, threshold, items[0]);
      if ok {
        ItemsStayFaithful(cfg, feed, clock, t, items[1..]);
      }
    }
  }

  ghost predicate Sound(cfg: Config, feed: iset<Attrs>, clock: int, s: State) {
    && Inv(s) && Faithful(s) && AllTraced(cfg, feed, clock, s, false) && s.polled >= clock
    && (s.lastSuccess.Some? ==> s.lastSuccess.value > clock)
  }

  lemma OpenPoll(cfg: Config, feed: iset<Attrs>, clock: int, s: State, now: int)
    requires Sound(cfg, feed, clock, s) && s.clock <= now && s.polled < now
    ensures var u := s.(polled := now, clock := now);
            Inv(u) && Faithful(u) && AllTraced(cfg, feed, clock, u, true) && SuccessBefore(u, clock)
  {
    var u := s.(polled := now, clock := now);
    forall i | i in u.table && u.table[i].withdrawn.None? && u.table[i].ageOut >= u.clock
      ensures Traced(cfg, feed, clock, u, u.table[i], true)
    {
      var h, items :| Traces(cfg, feed, clock, s, u.table[i], false, h, items);
      assert Traces(cfg, feed, clock, u, u.table[i], true, h, items);
    }
  }

  /** After a poll that went through, its time is the latest success. */
  lemma ClosePoll(cfg: Config, feed: iset<Attrs>, clock: int, s: State, lastrun: int)
    requires Inv(s) && AllTraced(cfg, feed, clock, s, true) && lastrun <= s.polled
    requires forall i :: i in s.table && s.table[i].lastRun != s.polled ==> s.table[i].lastRun < lastrun
    ensures AllTraced(cfg, feed, clock, s.(lastSuccess := Some(lastrun)), false)
  {
    var t := s.(lastSuccess := Some(lastrun));
    forall i | i in t.table && t.table[i].withdrawn.None? && t.table[i].ageOut >= t.clock
      ensures Traced(cfg, feed, clock, t, t.table[i], false)
    {
      var h, items :| Traces(cfg, feed, clock, s, s.table[i], true, h, items);
      assert Traces(cfg, feed, clock, t, t.table[i], false, h, items);
    }
  }

  lemma CloseFailed(cfg: Config, feed: iset<Attrs>, clock: int, s: State, open: bool)
    requires AllTraced(cfg, feed, clock, s, open)
    ensures AllTraced(cfg, feed, clock, s, false)
  {
    forall i | i in s.table && s.table[i].withdrawn.None? && s.table[i].ageOut >= s.clock
      ensures Traced(cfg, feed, clock, s, s.table[i], false)
    {
      var h, items :| Traces(cfg, feed, clock, s, s.table[i], open, h, items);
      assert Traces(cfg, feed, clock, s, s.table[i], false, h, items);
    }
  }

  lemma PollStaysSound(cfg: Config, feed: iset<Attrs>, clock: int, s: State, poll: Command)
    requires clock >= 0 && cfg.interval >= 0 && SoundFeed(cfg, feed, clock) && Sound(cfg, feed, clock, s)
    requires poll.Attempt? && Timely(s, poll) && AllFrom(poll.items, feed)
    ensures Sound(cfg, feed, clock, Apply(cfg, s, poll))
  {
    var Attempt(lastrun, now, items, completes) := poll;
    var u := s.(polled := now, clock := now);
    OpenPoll(cfg, feed, clock, s, now);
    ItemsStayFaithful(cfg, feed, clock, u, items);
    ItemsKeepInv(cfg, u, Threshold(cfg, s, now), items);
    var (t, ok) := ProcessItems(cfg, u, now, Threshold(cfg, s, now), items);
    ApplyKeepsInv(cfg, s, poll);
    if ok && completes {
      PollStamps(cfg, u, now, Threshold(cfg, s, now), items);
      ClosePoll(cfg, feed, clock, t, lastrun);
      FaithfulIgnoresSuccess(t, Some(lastrun));
    } else {
      CloseFailed(cfg, feed, clock, t, ok);
    }
  }

  lemma OtherStaysSound(cfg: Config, feed: iset<Attrs>, clock: int, s: State, c: Command)
    requires Sound(cfg, feed, clock, s) && !c.Attempt? && Timely(s, c) && CleanRebuild(s, c)
    ensures Sound(cfg, feed, clock, Apply(cfg, s, c))
  {
    var t := Apply(cfg, s, c);
    StepKeepsInv(cfg, s, c);
    OtherKeepsFaithful(cfg, s, c);
    OtherKeepsRows(cfg, s, c);
    forall i | i in t.table && t.table[i].withdrawn.None? && t.table[i].ageOut >= t.clock
      ensures Traced(cfg, feed, clock, t, t.table[i], false)
    {
      var h, items :| Traces(cfg, feed, clock, s, s.table[i], false, h, items);
      assert Traces(cfg, feed, clock, t, t.table[i], false, h, items);
    }
  }

  /** Commands other than polls leave the rows that matter as they are. */
  lemma OtherKeepsRows(cfg: Config, s: State, c: Command)
    requires Inv(s) && !c.Attempt? && Timely(s, c)
    ensures var t := Apply(cfg, s, c);
            && t.polled == s.polled && t.lastSuccess == s.lastSuccess && t.clock >= s.clock
            && forall i :: i in t.table && t.table[i].withdrawn.None? && t.table[i].ageOut >= t.clock ==>
                 i in s.table && t.table[i] == s.table[i]
  {
  }

  lemma {:induction false} RunStaysSound(cfg: Config, feed: iset<Attrs>, clock: int, s: State, cs: seq<Command>)
    requires clock >= 0 && cfg.interval >= 0 && SoundFeed(cfg, feed, clock) && Sound(cfg, feed, clock, s)
    requires Regular(cfg, s, cs) && FromFeed(cs, feed)
    ensures Faithful(Run(cfg, s, cs))
    decreases |cs|
  {
    if cs != [] {
      assert cs[0] in cs;
      if cs[0].Attempt? {
        PollStaysSound(cfg, feed, clock, s, cs[0]);
      } else {
        OtherStaysSound(cfg, feed, clock, s, cs[0]);
      }
      RunStaysSound(cfg, feed, clock, Apply(cfg, s, cs[0]), cs[1..]);
    }
  }

  /** Over all runs of a new miner on a feed the view is faithful, nothing within its limit
      missing and nothing within its limit stale, if and only if no listing spoils
      polls of a single indicator. */
  lemma FaithfulExactly(cfg: Config, feed: iset<Attrs>, clock: int)
    requires clock >= 0 && cfg.interval >= 0
    ensures AlwaysFaithful(cfg, feed, clock) <==> SoundFeed(cfg, feed, clock)
  {
    if SoundFeed(cfg, feed, clock) {
      forall cs | Regular(cfg, EmptyTable(clock), cs) && FromFeed(cs, feed)
        ensures Faithful(Run(cfg, EmptyTable(clock), cs))
      {
        RunStaysSound(cfg, feed, clock, EmptyTable(clock), cs);
      }
    } else {
      var h, now, items, item :| Spoilable(cfg, feed, clock, h, now, items, item);
      SpoilableSpoils(cfg, feed, clock, h, now, items, item);
    }
  }

  /** A feed with named attributes is sound. */
  lemma NamedFeedIsSound(cfg: Config, feed: iset<Attrs>, clock: int)
    requires clock >= 0 && cfg.interval >= 0 && Named(cfg, feed)
    ensures SoundFeed(cfg, feed, clock)
  {
    forall cs | Regular(cfg, EmptyTable(clock), cs) && FromFeed(cs, feed)
      ensures Faithful(Run(cfg, EmptyTable(clock), cs))
    {
      NewMinerKeepsInStep(cfg, clock, cs, feed);
    }
    FaithfulExactly(cfg, feed, clock);
  }

  // ---------- a feed on which nothing is missing and a value goes stale ----------

  /** Addresses age out with the first sighting, links never. */
  function StaleConfig(): Config {
    Config("source", map["type" := Text("IPv4")], 3600,
           map["IPv4" := Some(Rule("first_seen", 0)), "URL" := None], None)
  }

  const LINK: Attrs := map["type" := Text("URL")]
  const UNNAMED: Attrs := map["first_seen" := Num(0), "" := Num(7)]

  function StaleFeed(): iset<Attrs> { iset{LINK, UNNAMED} }

  lemma StaleFeedIsAnnounceable(clock: int)
    requires clock >= 0
    ensures Announceable(StaleConfig(), StaleFeed(), clock)
  {
    forall a, now | a in StaleFeed() && now > clock ensures !Unannounceable(StaleConfig(), a, now) {
      if a == UNNAMED {
        var attrs := FreshAttrs(StaleConfig(), UNNAMED, now);
        assert Get(attrs, "type") == Text("IPv4") && Get(attrs, "first_seen") == Num(0);
      }
    }
  }

  /** The link, entered at now. */
  function LinkRow(now: int): Row { Row(FreshAttrs(StaleConfig(), LINK, now), now, MAX_AGE_OUT, None) }

  lemma LinkEnters(s: State)
    requires s.table == map[] && s.clock <= MAX_AGE_OUT
    ensures Enter(StaleConfig(), s, s.clock, Item("", LINK, false)) == (Store(s, "", LinkRow(s.clock), true), true)
  {
    assert Get(FreshAttrs(StaleConfig(), LINK, s.clock), "type") == Text("URL");
  }

  lemma UnnamedStales(now: int)
    requires 0 < now <= MAX_AGE_OUT
    ensures Stales(StaleConfig(), LinkRow(now).attrs, Item("", UNNAMED, false), now)
  {
    var old_ := LinkRow(now).attrs;
    assert old_.Keys == {"type", "sources", "last_seen", "first_seen"};
    assert !exists k :: Missing(StaleConfig(), old_, UNNAMED, k);
    assert Get(old_, "first_seen") == Num(now) && UNNAMED["first_seen"] == Num(0);
    var merged := UpdateAttributes(StaleConfig(), old_, UNNAMED);
    assert Get(merged, "type") == Text("URL") && Get(merged, "first_seen") == Num(0);
    assert !Hidden("first_seen");
  }

  /** Nothing is ever missing of this feed, and still the view does not stay faithful: the link is
      announced, the second listing is merged, changes it, and cannot be announced. */
  lemma StaleThoughNeverMissing(clock: int)
    requires 0 <= clock < MAX_AGE_OUT
    ensures NeverMisses(StaleConfig(), StaleFeed(), clock) && !AlwaysFaithful(StaleConfig(), StaleFeed(), clock)
  {
    StaleFeedIsAnnounceable(clock);
    NothingMissingExactly(StaleConfig(), StaleFeed(), clock);
    StaleFeedIsSpoilable(clock);
    SpoilableSpoils(StaleConfig(), StaleFeed(), clock, [], clock + 1, [Item("", LINK, false)], Item("", UNNAMED,
        false));
  }

  lemma StaleFeedIsSpoilable(clock: int)
    requires 0 <= clock < MAX_AGE_OUT
    ensures Spoilable(StaleConfig(), StaleFeed(), clock, [], clock + 1, [Item("", LINK, false)], Item("", UNNAMED,
            false))
  {
    var cfg, now, link := StaleConfig(), clock + 1, Item("", LINK, false);
    var s := EmptyTable(clock).(polled := now, clock := now);
    LinkEnters(s);
    assert [link][1..] == [];
    var nothing: seq<Command> := [];
    assert Run(cfg, EmptyTable(clock), nothing) == EmptyTable(clock);
    var m := Store(s, "", LinkRow(now), true);
    var threshold := Threshold(cfg, EmptyTable(clock), now);
    assert ProcessItem(cfg, s, now, threshold, link) == (m, true);
    assert ProcessItems(cfg, m, now, threshold, []) == (m, true);
    assert ProcessItems(cfg, s, now, threshold, [link]) == (m, true);
    assert Midway(cfg, clock, nothing, now, [link]) == (m, true);
    UnnamedStales(now);
    assert Spoils(cfg, m, MidThreshold(cfg, clock, nothing, now), Item("", UNNAMED, false));
    assert Possible(cfg, StaleFeed(), clock, nothing, now, [link]);
  }
}
