/** What holds over whole runs of a polling miner's commands. */
module PollerTheorems {
  import opened Options
  import opened BasePoller

  function Run(cfg: Config, s: State, cs: seq<Command>): State
    decreases |cs|
  {
    if cs == [] then s else Run(cfg, Apply(cfg, s, cs[0]), cs[1..])
  }

  /** A rebuild that gets through to unmarked rows only. */
  ghost predicate CleanRebuild(s: State, c: Command) {
    c.Rebuild? ==> forall i :: i in Reached(s.table, s.table.Keys, c.before) ==> s.table[i].withdrawn.None?
  }

  /** Commands at times that fit the clock; no rebuild of marked rows. */
  ghost predicate Regular(cfg: Config, s: State, cs: seq<Command>)
    decreases |cs|
  {
    cs != [] ==> Timely(s, cs[0]) && CleanRebuild(s, cs[0]) && Regular(cfg, Apply(cfg, s, cs[0]), cs[1..])
  }

  lemma StepKeepsInv(cfg: Config, s: State, c: Command)
    requires Inv(s) && Timely(s, c) && CleanRebuild(s, c)
    ensures Inv(Apply(cfg, s, c))
  {
    if c.Rebuild? {
      RebuildKeepsInv(cfg, s, c.before);
    } else {
      ApplyKeepsInv(cfg, s, c);
    }
  }

  /** Over every run of polls (complete, partial or failing), age-outs, sudden
      deaths, collections and flushes, whatever raises in them: all that is announced has
      an unmarked row. Rows with a nameless attribute apart, what is missing
      downstream is past its limit, and what is announced within its limit shows
      the row's current visible value. */
  lemma {:induction false} NoOrphansEver(cfg: Config, s: State, cs: seq<Command>)
    requires Inv(s) && Regular(cfg, s, cs)
    ensures Inv(Run(cfg, s, cs))
    decreases |cs|
  {
    if cs != [] {
      StepKeepsInv(cfg, s, cs[0]);
      NoOrphansEver(cfg, Apply(cfg, s, cs[0]), cs[1..]);
    }
  }

  /** A miner whose table has just been emptied, at some time. */
  function EmptyTable(clock: int): State {
    State(map[], None, map[], clock, clock)
  }

  // ---------- attributes without a name ----------

  /** Every item of every poll comes from the feed. */
  ghost predicate FromFeed(cs: seq<Command>, feed: iset<Attrs>) {
    forall c :: c in cs && c.Attempt? ==> forall k :: 0 <= k < |c.items| ==> c.items[k].attrs in feed
  }

  ghost predicate AllFrom(items: seq<Item>, feed: iset<Attrs>) {
    forall k :: 0 <= k < |items| ==> items[k].attrs in feed
  }

  ghost predicate Named(cfg: Config, feed: iset<Attrs>) {
    !Nameless(cfg.template) && forall a :: a in feed ==> !Nameless(a)
  }

  lemma ItemKeepsNamed(cfg: Config, s: State, now: int, threshold: int, item: Item)
    requires AllNamed(s) && !Nameless(cfg.template) && !Nameless(item.attrs)
    ensures AllNamed(ProcessItem(cfg, s, now, threshold, item).0)
  {
  }

  lemma {:induction false} ItemsKeepNamed(cfg: Config, s: State, now: int, threshold: int, items: seq<Item>,
                                        feed: iset<Attrs>)
    requires AllNamed(s) && Named(cfg, feed) && AllFrom(items, feed)
    ensures AllNamed(ProcessItems(cfg, s, now, threshold, items).0)
    decreases |items|
  {
    if items != [] {
      ItemKeepsNamed(cfg, s, now, threshold, items[0]);
      ItemsKeepNamed(cfg, ProcessItem(cfg, s, now, threshold, items[0]).0, now, threshold, items[1..], feed);
    }
  }

  lemma StepKeepsNamed(cfg: Config, s: State, c: Command, feed: iset<Attrs>)
    requires AllNamed(s) && Named(cfg, feed) && (c.Attempt? ==> AllFrom(c.items, feed))
    ensures AllNamed(Apply(cfg, s, c))
  {
    if c.Attempt? {
      ItemsKeepNamed(cfg, s.(polled := c.now, clock := c.now), c.now, Threshold(cfg, s, c.now), c.items, feed);
    }
  }

  lemma NamedIsFaithful(s: State)
    requires Inv(s) && AllNamed(s)
    ensures Faithful(s)
  {
  }

  lemma {:induction false} NamedRunIsFaithful(cfg: Config, s: State, cs: seq<Command>, feed: iset<Attrs>)
    requires Inv(s) && AllNamed(s) && Named(cfg, feed) && FromFeed(cs, feed) && Regular(cfg, s, cs)
    ensures var t := Run(cfg, s, cs); Inv(t) && AllNamed(t) && Faithful(t)
    decreases |cs|
  {
    if cs == [] {
      NamedIsFaithful(s);
    } else {
      StepKeepsInv(cfg, s, cs[0]);
      StepKeepsNamed(cfg, s, cs[0], feed);
      NamedRunIsFaithful(cfg, Apply(cfg, s, cs[0]), cs[1..], feed);
    }
  }

  /** A miner of a feed with named attributes keeps the view in step from the moment its table was emptied. */
  lemma NewMinerKeepsInStep(cfg: Config, clock: int, cs: seq<Command>, feed: iset<Attrs>)
    requires clock >= 0 && Named(cfg, feed) && FromFeed(cs, feed) && Regular(cfg, EmptyTable(clock), cs)
    ensures Faithful(Run(cfg, EmptyTable(clock), cs))
  {
    NamedRunIsFaithful(cfg, EmptyTable(clock), cs, feed);
  }

  /** A new indicator that is within its limit and that cannot be announced. */
  predicate Unannounceable(cfg: Config, a: Attrs, now: int) {
    var attrs := FreshAttrs(cfg, a, now);
    Nameless(attrs) && CalcAgeOut(cfg, attrs).Some? && CalcAgeOut(cfg, attrs).value >= now
  }

  ghost predicate Announceable(cfg: Config, feed: iset<Attrs>, clock: int) {
    forall a, now :: a in feed && now > clock ==> !Unannounceable(cfg, a, now)
  }

  lemma RefreshMissesNothing(cfg: Config, s: State, item: Item)
    requires NothingMissing(s) && item.indicator in s.table
    requires s.table[item.indicator].withdrawn.None? && s.table[item.indicator].ageOut >= s.clock
    ensures NothingMissing(Refresh(cfg, s, s.clock, item).0)
  {
    assert item.indicator in s.view;
  }

  lemma ItemMissesNothing(cfg: Config, s: State, threshold: int, item: Item)
    requires NothingMissing(s) && !Unannounceable(cfg, item.attrs, s.clock)
    ensures var t := ProcessItem(cfg, s, s.clock, threshold, item).0; NothingMissing(t) && SameTimes(s, t)
  {
    var status := StatusOf(s.table, item.indicator, s.clock, threshold);
    if status.Known? && status.inFeed && !status.marked && !status.aged {
      RefreshMissesNothing(cfg, s, item);
    }
  }

  lemma {:induction false} ItemsMissNothing(cfg: Config, s: State, threshold: int, items: seq<Item>,
                                        feed: iset<Attrs>, clock: int)
    requires NothingMissing(s) && s.clock > clock && Announceable(cfg, feed, clock) && AllFrom(items, feed)
    ensures NothingMissing(ProcessItems(cfg, s, s.clock, threshold, items).0)
    decreases |items|
  {
    if items != [] {
      ItemMissesNothing(cfg, s, threshold, items[0]);
      ItemsMissNothing(cfg, ProcessItem(cfg, s, s.clock, threshold, items[0]).0, threshold, items[1..], feed, clock);
    }
  }

  lemma StepMissesNothing(cfg: Config, s: State, c: Command, feed: iset<Attrs>, clock: int)
    requires Inv(s) && NothingMissing(s) && Timely(s, c) && s.polled >= clock
    requires Announceable(cfg, feed, clock) && (c.Attempt? ==> AllFrom(c.items, feed))
    ensures NothingMissing(Apply(cfg, s, c)) && Apply(cfg, s, c).polled >= clock
  {
    match c {
      case Attempt(_, now, items, _) =>
        var u := s.(polled := now, clock := now);
        ItemsMissNothing(cfg, u, Threshold(cfg, s, now), items, feed, clock);
        ItemsKeepInv(cfg, u, Threshold(cfg, s, now), items);
      case SuddenDeath =>
      case _ => EmittingMissesNothing(cfg, s, c);
    }
  }

  lemma EmittingMissesNothing(cfg: Config, s: State, c: Command)
    requires NothingMissing(s) && Timely(s, c) && !c.Attempt? && !c.SuddenDeath?
    ensures NothingMissing(Apply(cfg, s, c)) && Apply(cfg, s, c).polled == s.polled
  {
  }

  lemma {:induction false} RunMissesNothing(cfg: Config, s: State, cs: seq<Command>, feed: iset<Attrs>, clock: int)
    requires Inv(s) && NothingMissing(s) && s.polled >= clock && Regular(cfg, s, cs)
    requires Announceable(cfg, feed, clock) && FromFeed(cs, feed)
    ensures NothingMissing(Run(cfg, s, cs))
    decreases |cs|
  {
    if cs != [] {
      assert cs[0] in cs;
      StepKeepsInv(cfg, s, cs[0]);
      StepMissesNothing(cfg, s, cs[0], feed, clock);
      RunMissesNothing(cfg, Apply(cfg, s, cs[0]), cs[1..], feed, clock);
    }
  }

  ghost predicate NeverMisses(cfg: Config, feed: iset<Attrs>, clock: int) {
    forall cs :: Regular(cfg, EmptyTable(clock), cs) && FromFeed(cs, feed) ==>
        NothingMissing(Run(cfg, EmptyTable(clock), cs))
  }

  lemma OnePollMisses(cfg: Config, feed: iset<Attrs>, clock: int, a: Attrs, now: int)
    requires a in feed && now > clock && Unannounceable(cfg, a, now)
    ensures !NeverMisses(cfg, feed, clock)
  {
    var s := EmptyTable(clock);
    var item := Item("indicator", a, false);
    var poll := Attempt(now, now, [item], true);
    var cs := [poll];
    assert cs[1..] == [] && [item][1..] == [];
    var t := Apply(cfg, s, poll);
    assert Run(cfg, s, cs) == Run(cfg, t, []) == t;
    assert t.table["indicator"].ageOut >= now && "indicator" !in t.view;
    assert !NothingMissing(t);
    assert Regular(cfg, t, []) && Regular(cfg, s, cs);
    assert FromFeed(cs, feed);
  }

  /** Over all runs of a new miner on a feed, no unmarked row within its limit is missing
      downstream, if and only if no indicator of the feed has, with the miner's
      template, a nameless attribute and a limit that is still to come. */
  lemma NothingMissingExactly(cfg: Config, feed: iset<Attrs>, clock: int)
    requires clock >= 0
    ensures NeverMisses(cfg, feed, clock) <==> Announceable(cfg, feed, clock)
  {
    if Announceable(cfg, feed, clock) {
      forall cs | Regular(cfg, EmptyTable(clock), cs) && FromFeed(cs, feed)
        ensures NothingMissing(Run(cfg, EmptyTable(clock), cs))
      {
        RunMissesNothing(cfg, EmptyTable(clock), cs, feed, clock);
      }
    } else {
      var a, now :| a in feed && now > clock && Unannounceable(cfg, a, now);
      OnePollMisses(cfg, feed, clock, a, now);
    }
  }

  /** After that the indicator stays missing: every later poll that lists it raises when comparing
      or merging, unless the feed gives the nameless attribute again and another has gone. */
  lemma NamelessStopsPolls(cfg: Config, s: State, now: int, threshold: int, item: Item)
    requires item.indicator in s.table && StatusOf(s.table, item.indicator, now, threshold) == Known(true, false, false)
    requires Nameless(s.table[item.indicator].attrs) && !Nameless(cfg.template)
    requires !Nameless(item.attrs) || forall k :: !Missing(cfg, s.table[item.indicator].attrs, item.attrs, k)
    ensures ProcessItem(cfg, s, now, threshold, item) == (s, false)
  {
  }

  /** A poll that raises has got through to one item and raised there; the items behind it do nothing. */
  lemma {:induction false} RaisesAt(cfg: Config, s: State, now: int, threshold: int, items: seq<Item>) returns (k: nat)
    requires !ProcessItems(cfg, s, now, threshold, items).1
    ensures k < |items|
    ensures var (u, ok) := ProcessItems(cfg, s, now, threshold, items[..k]);
            ok && ProcessItem(cfg, u, now, threshold, items[k]) == ProcessItems(cfg, s, now, threshold, items)
    decreases |items|
  {
    var (u, went) := ProcessItem(cfg, s, now, threshold, items[0]);
    if went {
      var m := RaisesAt(cfg, u, now, threshold, items[1..]);
      k := m + 1;
      assert items[..k][1..] == items[1..][..m];
    } else {
      k := 0;
    }
  }

  // ---------- one full cycle ----------

  ghost predicate Lists(items: seq<Item>, i: string) {
    exists k :: 0 <= k < |items| && items[k].indicator == i
  }

  ghost predicate Stamped(s: State, t: State, i: string, now: int) {
    i in t.table && ((i in s.table && t.table[i] == s.table[i]) || t.table[i].lastRun == now)
  }

  /** A poll touches the rows it lists and stamps them with its time; others stay. */
  lemma {:induction false} PollStamps(cfg: Config, s: State, now: int, threshold: int, items: seq<Item>)
    ensures var (t, ok) := ProcessItems(cfg, s, now, threshold, items);
            && s.table.Keys <= t.table.Keys
            && (forall i :: i in t.table ==>
                  (i in s.table && t.table[i] == s.table[i]) || (Lists(items, i) && t.table[i].lastRun == now))
            && (ok ==> forall i :: Lists(items, i) ==> i in t.table && t.table[i].lastRun == now)
    decreases |items|
  {
    if items != [] {
      var (u, went) := ProcessItem(cfg, s, now, threshold, items[0]);
      var rest := items[1..];
      ItemStamps(cfg, s, now, threshold, items[0]);
      assert Lists(items, items[0].indicator);
      if went {
        PollStamps(cfg, u, now, threshold, rest);
        ListsTail(items);
      }
    }
  }

  lemma ListsTail(items: seq<Item>)
    requires items != []
    ensures forall i :: Lists(items, i) <==> i == items[0].indicator || Lists(items[1..], i)
  {
    var rest := items[1..];
    forall i ensures Lists(items, i) <==> i == items[0].indicator || Lists(rest, i) {
      if k :| 0 <= k < |rest| && rest[k].indicator == i {
        assert items[k + 1].indicator == i;
      }
      if k :| 0 < k < |items| && items[k].indicator == i {
        assert rest[k - 1].indicator == i;
      }
    }
  }

  lemma ItemStamps(cfg: Config, s: State, now: int, threshold: int, item: Item)
    ensures var (u, ok) := ProcessItem(cfg, s, now, threshold, item);
            && s.table.Keys <= u.table.Keys <= s.table.Keys + {item.indicator}
            && (forall i :: i in s.table && i != item.indicator ==> u.table[i] == s.table[i])
            && (item.indicator in u.table ==> Stamped(s, u, item.indicator, now))
            && (ok ==> item.indicator in u.table && u.table[item.indicator].lastRun == now)
  {
  }

  ghost predicate Successful(cfg: Config, s: State, c: Command)
    requires c.Attempt?
  {
    c.completes && ProcessItems(cfg, s.(polled := c.now, clock := c.now), c.now, Threshold(cfg, s, c.now), c.items).1
  }

  lemma AfterPoll(cfg: Config, s: State, c: Command)
    requires Inv(s) && c.Attempt? && Timely(s, c) && Successful(cfg, s, c)
    ensures var t := Apply(cfg, s, c);
            && Inv(t) && t.lastSuccess == Some(c.lastrun) && t.clock == c.now
            && forall i :: i in t.table ==> if Lists(c.items, i) then t.table[i].lastRun ==
                 c.now else t.table[i].lastRun < c.lastrun
  {
    ApplyKeepsInv(cfg, s, c);
    ItemsKeepInv(cfg, s.(polled := c.now, clock := c.now), Threshold(cfg, s, c.now), c.items);
    PollStamps(cfg, s.(polled := c.now, clock := c.now), c.now, Threshold(cfg, s, c.now), c.items);
  }

  /** In the table p after a poll: in the feed, not withdrawn, and within its limit at t. */
  ghost predicate Alive(p: State, poll: Command, t: int, i: string)
    requires poll.Attempt?
  {
    Lists(poll.items, i) && i in p.table && p.table[i].withdrawn.None? && p.table[i].ageOut >= t
  }

  /** Downstream knows i exactly if it is alive, by its current value; a row that is
      alive is untouched, and any other that is left is marked. */
  ghost predicate ExactAt(p: State, done: State, poll: Command, t: int, i: string)
    requires poll.Attempt?
  {
    && (i in done.view <==> Alive(p, poll, t, i))
    && (Alive(p, poll, t, i) ==>
          i in done.table && done.table[i] == p.table[i] && SameView(done.view[i], p.table[i].attrs))
    && (!Alive(p, poll, t, i) && i in done.table ==> done.table[i].withdrawn.Some?)
  }

  ghost predicate CycleExact(p: State, done: State, poll: Command, t: int)
    requires poll.Attempt?
  {
    forall i :: ExactAt(p, done, poll, t, i)
  }

  /** After the poll every unmarked row with a nameless attribute is alive at t, announced and current. */
  ghost predicate NamelessInStep(p: State, poll: Command, t: int)
    requires poll.Attempt?
  {
    forall i :: i in p.table && p.table[i].withdrawn.None? && Nameless(p.table[i].attrs) ==>
      Alive(p, poll, t, i) && i in p.view && SameView(p.view[i], p.table[i].attrs)
  }

  /** What a successful poll leaves: rows of the poll, and rows last seen before it. */
  ghost predicate Sorted(p: State, poll: Command)
    requires poll.Attempt?
  {
    && Inv(p) && p.lastSuccess == Some(poll.lastrun) && poll.lastrun <= poll.now && p.clock == poll.now
    && forall i :: i in p.table ==>
         if Lists(poll.items, i) then p.table[i].lastRun == poll.now else p.table[i].lastRun < poll.lastrun
  }

  lemma PollSorts(cfg: Config, s: State, poll: Command)
    requires Inv(s) && poll.Attempt? && Timely(s, poll) && Successful(cfg, s, poll)
    ensures Sorted(Apply(cfg, s, poll), poll)
  {
    AfterPoll(cfg, s, poll);
  }

  function DieAndAge(cfg: Config, p: State, t: int, before: set<string>): State {
    Apply(cfg, Apply(cfg, p, SuddenDeath), AgeOut(t, before))
  }

  /** A successful poll, sudden death and an age-out at time t: for every order in which the age-out
      takes the rows, downstream knows exactly what the poll left alive, if and only if
      after the poll no row with a nameless attribute stands in the way. */
  lemma CycleExactly(cfg: Config, s: State, poll: Command, t: int)
    requires Inv(s) && poll.Attempt? && Timely(s, poll) && Successful(cfg, s, poll) && poll.now <= t
    ensures var p := Apply(cfg, s, poll);
            (forall before :: CycleExact(p, DieAndAge(cfg, p, t, before), poll, t)) <==> NamelessInStep(p, poll, t)
  {
    var p := Apply(cfg, s, poll);
    PollSorts(cfg, s, poll);
    if NamelessInStep(p, poll, t) {
      forall before ensures CycleExact(p, DieAndAge(cfg, p, t, before), poll, t) {
        AgedIsExact(cfg, p, poll, t, before);
      }
    } else {
      NamelessInTheWay(cfg, p, poll, t);
    }
  }

  lemma KilledRow(cfg: Config, p: State, poll: Command, t: int, i: string)
    requires poll.Attempt? && Sorted(p, poll) && poll.now <= t && i in p.table
    ensures var d := Apply(cfg, p, SuddenDeath);
            && i in d.table && d.view == p.view && d.table[i] == p.table[i].(ageOut := d.table[i].ageOut)
            && (Lists(poll.items, i) ==> d.table[i] == p.table[i])
            && (p.table[i].withdrawn.None? ==> (Alive(p, poll, t, i) <==> d.table[i].ageOut >= t))
  {
  }

  lemma NamelessInTheWay(cfg: Config, p: State, poll: Command, t: int)
    requires poll.Attempt? && Sorted(p, poll) && poll.now <= t && !NamelessInStep(p, poll, t)
    ensures exists before :: !CycleExact(p, DieAndAge(cfg, p, t, before), poll, t)
  {
    var none: set<string> := {};
    var d := Apply(cfg, p, SuddenDeath);
    var aged := DieAndAge(cfg, p, t, none);
    var i :| i in p.table && p.table[i].withdrawn.None? && Nameless(p.table[i].attrs) &&
             !(Alive(p, poll, t, i) && i in p.view && SameView(p.view[i], p.table[i].attrs));
    KilledRow(cfg, p, poll, t, i);
    assert i !in Reached(d.table, ExpiredRows(d.table, t), none);
    assert aged.table[i] == d.table[i];
    assert !ExactAt(p, aged, poll, t, i);
  }

  lemma AgedIsExact(cfg: Config, p: State, poll: Command, t: int, before: set<string>)
    requires poll.Attempt? && Sorted(p, poll) && poll.now <= t && NamelessInStep(p, poll, t)
    ensures CycleExact(p, DieAndAge(cfg, p, t, before), poll, t)
  {
    var d := Apply(cfg, p, SuddenDeath);
    forall i | i in d.table && Expired(d.table[i], t) ensures !Nameless(d.table[i].attrs) {
      KilledRow(cfg, p, poll, t, i);
    }
    assert Reached(d.table, ExpiredRows(d.table, t), before) == ExpiredRows(d.table, t);
    forall i ensures ExactAt(p, DieAndAge(cfg, p, t, before), poll, t, i) {
      if i in p.table {
        KilledRow(cfg, p, poll, t, i);
      }
    }
  }

  /** A collection after such a cycle keeps exactly the rows last seen no more than a
      millisecond before the poll began, as they were, and announces and withdraws nothing. */
  lemma CycleIsExact(cfg: Config, s: State, poll: Command, t: int, before: set<string>, t': int)
    requires Inv(s) && poll.Attempt? && Timely(s, poll) && Successful(cfg, s, poll) && poll.now <= t <= t'
    requires NamelessInStep(Apply(cfg, s, poll), poll, t)
    ensures var p := Apply(cfg, s, poll);
            var aged := DieAndAge(cfg, p, t, before);
            var done := Apply(cfg, aged, CollectGarbage(t'));
            && CycleExact(p, done, poll, t) && done.view == aged.view
            && (forall i :: i in done.table <==> i in p.table && p.table[i].lastRun >= poll.lastrun - 1)
            && (forall i :: i in done.table ==> done.table[i] == aged.table[i])
  {
    PollSorts(cfg, s, poll);
    CollectedCycle(cfg, Apply(cfg, s, poll), poll, t, before, t');
  }

  lemma CollectedCycle(cfg: Config, p: State, poll: Command, t: int, before: set<string>, t': int)
    requires poll.Attempt? && Sorted(p, poll) && NamelessInStep(p, poll, t) && poll.now <= t <= t'
    ensures var aged := DieAndAge(cfg, p, t, before);
            var done := Apply(cfg, aged, CollectGarbage(t'));
            && CycleExact(p, done, poll, t) && done.view == aged.view
            && (forall i :: i in done.table <==> i in p.table && p.table[i].lastRun >= poll.lastrun - 1)
            && (forall i :: i in done.table ==> done.table[i] == aged.table[i])
  {
    var aged := DieAndAge(cfg, p, t, before);
    AgedIsExact(cfg, p, poll, t, before);
    AgedIsSound(cfg, p, poll, t, before);
    forall i | i in aged.table && aged.table[i].withdrawn.None? ensures aged.table[i].lastRun >= poll.lastrun {
      assert ExactAt(p, aged, poll, t, i);
    }
    CollectedIsFresh(cfg, poll, aged, t');
    ExactIsKept(p, aged, Apply(cfg, aged, CollectGarbage(t')), poll, t);
  }

  lemma AgedIsSound(cfg: Config, p: State, poll: Command, t: int, before: set<string>)
    requires poll.Attempt? && Sorted(p, poll) && poll.now <= t
    ensures var aged := DieAndAge(cfg, p, t, before);
            && aged.lastSuccess == p.lastSuccess && aged.table.Keys == p.table.Keys
            && forall i :: i in p.table ==>
                 && aged.table[i].lastRun == p.table[i].lastRun
                 && (aged.table[i].withdrawn.Some? ==> aged.table[i].withdrawn.value <= t)
  {
    var d := Apply(cfg, p, SuddenDeath);
    forall i | i in p.table ensures d.table[i].lastRun == p.table[i].lastRun {
      KilledRow(cfg, p, poll, t, i);
    }
  }

  lemma ExactIsKept(p: State, aged: State, done: State, poll: Command, t: int)
    requires poll.Attempt? && CycleExact(p, aged, poll, t) && done.view == aged.view
    requires forall i :: i in done.table ==> i in aged.table && done.table[i] == aged.table[i]
    requires forall i :: i in aged.table && aged.table[i].withdrawn.None? ==> i in done.table
    requires forall i :: i in p.table ==> i in aged.table
    ensures CycleExact(p, done, poll, t)
  {
    forall i ensures ExactAt(p, done, poll, t, i) {
      assert ExactAt(p, aged, poll, t, i);
    }
  }

  lemma CollectedIsFresh(cfg: Config, poll: Command, aged: State, t': int)
    requires poll.Attempt? && aged.lastSuccess == Some(poll.lastrun)
    requires forall i :: i in aged.table && aged.table[i].withdrawn.Some? ==> aged.table[i].withdrawn.value <= t'
    requires forall i :: i in aged.table && aged.table[i].withdrawn.None? ==> aged.table[i].lastRun >= poll.lastrun
    ensures var done := Apply(cfg, aged, CollectGarbage(t'));
            && done.view == aged.view
            && (forall i :: i in done.table <==> i in aged.table && aged.table[i].lastRun >= poll.lastrun - 1)
            && (forall i :: i in done.table ==> done.table[i] == aged.table[i])
  {
  }

  // ---------- no flapping ----------

  /** Withdrawn while still in the feed: the row is kept, marked, and at least as
      recent as the latest successful poll. */
  ghost predicate Held(s: State, i: string) {
    && i !in s.view && i in s.table && s.table[i].withdrawn.Some?
    && s.lastSuccess.Some? && s.table[i].lastRun >= s.lastSuccess.value
  }

  lemma ItemKeepsHeld(cfg: Config, s: State, now: int, item: Item, i: string)
    requires Held(s, i) && now >= s.lastSuccess.value
    ensures var t := ProcessItem(cfg, s, now, s.lastSuccess.value, item).0;
            Held(t, i) && t.lastSuccess == s.lastSuccess
  {
  }

  lemma {:induction false} ItemsKeepHeld(cfg: Config, s: State, now: int, items: seq<Item>, i: string)
    requires Held(s, i) && now >= s.lastSuccess.value
    ensures var (t, ok) := ProcessItems(cfg, s, now, s.lastSuccess.value, items);
            && Held(t, i) && t.lastSuccess == s.lastSuccess
            && (ok && Lists(items, i) ==> t.table[i].lastRun == now)
    decreases |items|
  {
    PollStamps(cfg, s, now, s.lastSuccess.value, items);
    if items != [] {
      var (u, went) := ProcessItem(cfg, s, now, s.lastSuccess.value, items[0]);
      ItemKeepsHeld(cfg, s, now, items[0], i);
      if went {
        ItemsKeepHeld(cfg, u, now, items[1..], i);
      }
    }
  }

  lemma StepKeepsHeld(cfg: Config, s: State, c: Command, i: string)
    requires Held(s, i) && TimesInv(s) && Timely(s, c) && !c.Rebuild?
    requires c.Attempt? && Successful(cfg, s, c) ==> Lists(c.items, i)
    ensures Held(Apply(cfg, s, c), i)
  {
    if c.Attempt? {
      ItemsKeepHeld(cfg, s.(polled := c.now, clock := c.now), c.now, c.items, i);
    }
  }

  /** Every successful poll of the run lists i, and nothing is rebuilt. */
  ghost predicate AlwaysListed(cfg: Config, s: State, cs: seq<Command>, i: string)
    decreases |cs|
  {
    cs != [] ==>
      && !cs[0].Rebuild? && Timely(s, cs[0])
      && (cs[0].Attempt? && Successful(cfg, s, cs[0]) ==> Lists(cs[0].items, i))
      && AlwaysListed(cfg, Apply(cfg, s, cs[0]), cs[1..], i)
  }

  /** An indicator withdrawn while still in the feed stays withdrawn, at every
      moment of every run in which each successful poll lists it. */
  lemma {:induction false} NoFlapping(cfg: Config, s: State, cs: seq<Command>, i: string)
    requires Inv(s) && Held(s, i) && AlwaysListed(cfg, s, cs, i)
    ensures forall k :: 0 <= k <= |cs| ==> i !in Run(cfg, s, cs[..k]).view
    decreases |cs|
  {
    if cs != [] {
      StepKeepsHeld(cfg, s, cs[0], i);
      ApplyKeepsInv(cfg, s, cs[0]);
      var t := Apply(cfg, s, cs[0]);
      NoFlapping(cfg, t, cs[1..], i);
      forall k | 0 <= k <= |cs| ensures i !in Run(cfg, s, cs[..k]).view {
        if k > 0 {
          assert cs[..k][1..] == cs[1..][..k - 1];
        }
      }
    }
  }

  /** How an indicator comes to be held: an age-out gets through to it at its limit
      while the latest successful poll listed it. */
  lemma AgeOutHolds(cfg: Config, s: State, now: int, before: set<string>, i: string)
    requires Inv(s) && i in Reached(s.table, ExpiredRows(s.table, now), before)
    requires i in s.table && s.lastSuccess.Some? && s.table[i].lastRun >= s.lastSuccess.value
    ensures Held(Apply(cfg, s, AgeOut(now, before)), i)
    ensures Apply(cfg, s, AgeOut(now, before)).table[i].withdrawn == Some(now)
  {
  }

  // ---------- what a rebuild of a marked row does ----------

  /** Announced, and no unmarked row that an age-out or a flush would withdraw. */
  ghost predicate Orphan(s: State, i: string) {
    i in s.view && (i in s.table ==> s.table[i].withdrawn.Some?)
  }

  lemma {:induction false} ItemsKeepOrphan(cfg: Config, s: State, now: int, threshold: int, items: seq<Item>, i: string)
    requires Orphan(s, i) && !Lists(items, i)
    ensures Orphan(ProcessItems(cfg, s, now, threshold, items).0, i)
    decreases |items|
  {
    if items != [] {
      assert items[0].indicator != i;
      ListsTail(items);
      ItemsKeepOrphan(cfg, ProcessItem(cfg, s, now, threshold, items[0]).0, now, threshold, items[1..], i);
    }
  }

  lemma StepKeepsOrphan(cfg: Config, s: State, c: Command, i: string)
    requires Orphan(s, i) && (c.Attempt? ==> !Lists(c.items, i))
    ensures Orphan(Apply(cfg, s, c), i)
  {
    if c.Attempt? {
      ItemsKeepOrphan(cfg, s.(polled := c.now, clock := c.now), c.now, Threshold(cfg, s, c.now), c.items, i);
    }
  }

  lemma {:induction false} OrphanForEver(cfg: Config, s: State, i: string, cs: seq<Command>)
    requires Orphan(s, i)
    requires forall k :: 0 <= k < |cs| && cs[k].Attempt? ==> !Lists(cs[k].items, i)
    ensures Orphan(Run(cfg, s, cs), i)
    decreases |cs|
  {
    if cs != [] {
      StepKeepsOrphan(cfg, s, cs[0], i);
      OrphanForEver(cfg, Apply(cfg, s, cs[0]), i, cs[1..]);
    }
  }

  /** A marked row that a rebuild announces is never withdrawn again: not by age-outs,
      flushes or collections, in any run whose polls do not list it. */
  lemma ResurrectedIsNeverWithdrawn(cfg: Config, s: State, before: set<string>, i: string, cs: seq<Command>)
    requires i in Reached(s.table, s.table.Keys, before) && s.table[i].withdrawn.Some?
    requires forall k :: 0 <= k < |cs| && cs[k].Attempt? ==> !Lists(cs[k].items, i)
    ensures i in Run(cfg, Apply(cfg, s, Rebuild(before)), cs).view
  {
    OrphanForEver(cfg, Apply(cfg, s, Rebuild(before)), i, cs);
  }
}
