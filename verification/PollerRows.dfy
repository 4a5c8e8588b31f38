/** What the rows of a polling miner say: the attributes and limits they get, how a flushed
    indicator comes back, and what an age-out rule on `last_seen` amounts to. */
module PollerRows {
  import opened Options
  import opened BasePoller
  import opened PollerTheorems

  // ---------- limits ----------

  /** The age-out rule for an indicator's type, or the default rule. */
  ghost predicate HasRule(cfg: Config, attrs: Attrs, rule: Option<Rule>) {
    match Get(attrs, "type")
    case Text(t) => rule == if t in cfg.ageOutOf then cfg.ageOutOf[t] else cfg.ageOutDefault
    case Names(_) => false
    case _ => rule == cfg.ageOutDefault
  }

  /** The limit is so many milliseconds after the base attribute; without a rule it is
      the largest unsigned 32-bit number of seconds. */
  lemma LimitExactly(cfg: Config, attrs: Attrs, limit: int)
    ensures CalcAgeOut(cfg, attrs) == Some(limit) <==>
      exists rule :: HasRule(cfg, attrs, rule) &&
        (if rule.None? then limit == 4294967295000 else Get(attrs, rule.value.base) == Num(limit - rule.value.offset))
  {
    var t := Get(attrs, "type");
    if !t.Names? {
      var rule := if t.Text? && t.s in cfg.ageOutOf then cfg.ageOutOf[t.s] else cfg.ageOutDefault;
      assert HasRule(cfg, attrs, rule);
      assert rule.Some? && Get(attrs, rule.value.base).Num? ==>
        Get(attrs, rule.value.base) == Num(attrs[rule.value.base].n);
    }
  }

  /** An indicator that enters at now under a rule on first_seen, of which the feed says nothing:
      it is announced if the offset is not negative, and an age-out takes it after
      exactly that time. */
  lemma EnteredExpires(cfg: Config, s: State, now: int, item: Item, offset: int, t: int)
    requires HasRule(cfg, FreshAttrs(cfg, item.attrs, now), Some(Rule("first_seen", offset)))
    requires "first_seen" !in item.attrs && !Nameless(FreshAttrs(cfg, item.attrs, now))
    ensures var (u, ok) := Enter(cfg, s, now, item);
            && ok && item.indicator in u.table && u.table[item.indicator].ageOut == now + offset
            && u.view == (if offset >= 0 then s.view[item.indicator := Visible(FreshAttrs(cfg, item.attrs, now))]
                          else s.view)
            && (item.indicator in ExpiredRows(u.table, t) <==> t > now + offset)
  {
    LimitExactly(cfg, FreshAttrs(cfg, item.attrs, now), now + offset);
  }

  // ---------- attributes ----------

  /** Receivers see every attribute but those whose key starts with `_` or `$`. */
  lemma VisibleExactly(a: Attrs, k: string)
    ensures k in Visible(a) <==> k in a && !(|k| > 0 && (k[0] == '_' || k[0] == '$'))
    ensures k in Visible(a) ==> Visible(a)[k] == a[k]
  {
  }

  /** The poll takes the indicator's attributes: it is new or back in the feed, or it
      is in the feed, within its limit and not withdrawn. */
  ghost predicate Takes(s: State, i: string, now: int, threshold: int) {
    i in s.table && s.table[i].lastRun >= threshold ==> s.table[i].withdrawn.None? && s.table[i].ageOut >= now
  }

  /** The row shows the item as polled at now: every attribute the feed gives, and nothing
      else but what the template gives, the three standard ones and hidden ones. */
  ghost predicate Shows(cfg: Config, r: Row, item: Item, now: int) {
    && r.lastRun == now && r.withdrawn.None? && CalcAgeOut(cfg, r.attrs) == Some(r.ageOut)
    && (forall k :: k in item.attrs ==> k in r.attrs && r.attrs[k] == item.attrs[k])
    && (forall k :: k in r.attrs && k !in item.attrs ==> k in cfg.template || Standard(k) || Hidden(k))
  }

  lemma TakenIsShown(cfg: Config, s: State, now: int, threshold: int, item: Item)
    requires Takes(s, item.indicator, now, threshold) && ProcessItem(cfg, s, now, threshold, item).1
    ensures var u := ProcessItem(cfg, s, now, threshold, item).0;
            item.indicator in u.table && Shows(cfg, u.table[item.indicator], item, now)
  {
  }

  /** Otherwise a listing only says that the indicator is in the feed: its row is stamped, the mark of
      a withdrawn row too, and nothing is published. */
  lemma NotTakenIsStamped(cfg: Config, s: State, now: int, threshold: int, item: Item)
    requires !Takes(s, item.indicator, now, threshold)
    ensures var r := s.table[item.indicator];
            var (u, ok) := ProcessItem(cfg, s, now, threshold, item);
            && ok && u.view == s.view
            && u.table == s.table[item.indicator := r.(lastRun := now,
                 withdrawn := if r.withdrawn.Some? then Some(now) else None)]
  {
  }

  /** In the feed: listed by or since the latest successful poll, or, as long as there has been
      none, within the last interval. */
  lemma InFeedExactly(cfg: Config, s: State, now: int, i: string)
    requires i in s.table
    ensures StatusOf(s.table, i, now, Threshold(cfg, s, now)).inFeed <==>
            match s.lastSuccess
            case Some(last) => last <= s.table[i].lastRun
            case None => now - s.table[i].lastRun <= cfg.interval * 1000
  {
  }

  /** What a new indicator gets beside the attributes of the feed, which go first. */
  lemma EntryDefaults(cfg: Config, given: Attrs, now: int, k: string)
    ensures var attrs := FreshAttrs(cfg, given, now);
            && (k in given ==> k in attrs && attrs[k] == given[k])
            && (k !in given ==>
                  if k == "first_seen" || k == "last_seen" then k in attrs && attrs[k] == Num(now)
                  else if k == "sources" then k in attrs && attrs[k] == Names([cfg.sourceName])
                  else (k in attrs <==> k in cfg.template) && Get(attrs, k) == Get(cfg.template, k))
  {
  }

  /** Listing an indicator again with the same attributes publishes nothing and keeps its limit. */
  lemma SameListingIsSilent(cfg: Config, s: State, now: int, item: Item)
    requires item.indicator in s.table && !Nameless(s.table[item.indicator].attrs)
    requires CalcAgeOut(cfg, s.table[item.indicator].attrs).Some?
    requires item.attrs.Keys <= s.table[item.indicator].attrs.Keys
    requires forall k :: k in item.attrs ==> s.table[item.indicator].attrs[k] == item.attrs[k]
    requires forall k :: k in s.table[item.indicator].attrs ==>
      k in item.attrs || k in cfg.template || Standard(k) || Hidden(k)
    ensures var attrs := s.table[item.indicator].attrs;
            Refresh(cfg, s, now, item) ==
            (s.(table := s.table[item.indicator := Row(attrs, now, CalcAgeOut(cfg, attrs).value, None)]), true)
  {
    var attrs := s.table[item.indicator].attrs;
    assert UpdateAttributes(cfg, attrs, item.attrs) == attrs;
  }

  /** Until a poll has succeeded sudden deaths and collections leave everything as it is. */
  lemma NothingBeforeSuccess(cfg: Config, s: State, now: int)
    requires s.lastSuccess.None?
    ensures Apply(cfg, s, SuddenDeath) == s
    ensures Apply(cfg, s, CollectGarbage(now)) == s.(clock := now)
  {
  }

  /** One item of a poll leaves all other indicators as they are. */
  lemma OtherItem(cfg: Config, s: State, now: int, threshold: int, item: Item, i: string)
    requires item.indicator != i
    ensures SameAt(s, ProcessItem(cfg, s, now, threshold, item).0, i)
  {
  }

  ghost predicate SameAt(s: State, u: State, i: string) {
    && (i in u.table <==> i in s.table) && (i in s.table ==> u.table[i] == s.table[i])
    && (i in u.view <==> i in s.view) && (i in s.view ==> u.view[i] == s.view[i])
  }

  lemma {:induction false} OtherItems(cfg: Config, s: State, now: int, threshold: int, items: seq<Item>, i: string)
    requires !Lists(items, i)
    ensures SameAt(s, ProcessItems(cfg, s, now, threshold, items).0, i)
    decreases |items|
  {
    if items != [] {
      assert items[0].indicator != i;
      ListsTail(items);
      OtherItem(cfg, s, now, threshold, items[0], i);
      OtherItems(cfg, ProcessItem(cfg, s, now, threshold, items[0]).0, now, threshold, items[1..], i);
    }
  }

  ghost predicate ListedOnce(items: seq<Item>, k: nat) {
    k < |items| && forall j :: 0 <= j < |items| && j != k ==> items[j].indicator != items[k].indicator
  }

  /** After a poll an indicator that it listed once, and whose attributes it took, has a
      row that shows the listing. */
  lemma {:induction false} PollShowsFeed(cfg: Config, s: State, now: int, threshold: int, items: seq<Item>, k: nat)
    requires ListedOnce(items, k) && Takes(s, items[k].indicator, now, threshold)
    requires ProcessItems(cfg, s, now, threshold, items).1
    ensures var t := ProcessItems(cfg, s, now, threshold, items).0;
            items[k].indicator in t.table && Shows(cfg, t.table[items[k].indicator], items[k], now)
    decreases |items|
  {
    var i, u := items[k].indicator, ProcessItem(cfg, s, now, threshold, items[0]).0;
    if k == 0 {
      TakenIsShown(cfg, s, now, threshold, items[0]);
      OtherItems(cfg, u, now, threshold, items[1..], i);
    } else {
      OtherItem(cfg, s, now, threshold, items[0], i);
      PollShowsFeed(cfg, u, now, threshold, items[1..], k - 1);
    }
  }

  // ---------- flush ----------

  /** With named attributes a flush withdraws all that is announced, and leaves no row unmarked. */
  lemma FlushEmptiesView(cfg: Config, s: State, now: int, before: set<string>)
    requires NoOrphans(s) && AllNamed(s)
    ensures var t := Apply(cfg, s, Flush(now, before));
            && t.view == map[] && t.table.Keys == s.table.Keys
            && forall i :: i in s.table ==>
                 if s.table[i].withdrawn.None? then OutOfFeed(t, i) && t.table[i].withdrawn == Some(now)
                 else t.table[i] == s.table[i]
  {
  }

  /** Without a row, or flushed: withdrawn, and taken out of the feed. */
  ghost predicate OutOfFeed(s: State, i: string) {
    i in s.table ==> s.table[i].withdrawn.Some? && s.table[i].lastRun == 0
  }

  lemma StepKeepsOut(cfg: Config, s: State, c: Command, i: string)
    requires OutOfFeed(s, i) && (c.Attempt? ==> !Lists(c.items, i))
    ensures OutOfFeed(Apply(cfg, s, c), i)
  {
    if c.Attempt? {
      OtherItems(cfg, s.(polled := c.now, clock := c.now), c.now, Threshold(cfg, s, c.now), c.items, i);
    }
  }

  lemma {:induction false} RunKeepsOut(cfg: Config, s: State, cs: seq<Command>, i: string)
    requires OutOfFeed(s, i) && NotListed(cs, i)
    ensures OutOfFeed(Run(cfg, s, cs), i)
    decreases |cs|
  {
    if cs != [] {
      StepKeepsOut(cfg, s, cs[0], i);
      RunKeepsOut(cfg, Apply(cfg, s, cs[0]), cs[1..], i);
    }
  }

  ghost predicate NotListed(cs: seq<Command>, i: string) {
    forall k :: 0 <= k < |cs| && cs[k].Attempt? ==> !Lists(cs[k].items, i)
  }

  /** After a flush that got to i, and any commands that do not list it: the next poll that gets through
      and lists i once announces it again as new, provided it is within its limit. */
  lemma FlushedComesBack(cfg: Config, s: State, at: int, before: set<string>, cs: seq<Command>, poll: Command, k: nat)
    requires poll.Attempt? && ListedOnce(poll.items, k) && NotListed(cs, poll.items[k].indicator)
    requires poll.items[k].indicator in Reached(s.table, UnmarkedRows(s.table), before)
    requires var u := Run(cfg, Apply(cfg, s, Flush(at, before)), cs);
             Successful(cfg, u, poll) && Threshold(cfg, u, poll.now) > 0
    requires var limit := CalcAgeOut(cfg, FreshAttrs(cfg, poll.items[k].attrs, poll.now));
             limit.Some? ==> limit.value >= poll.now
    ensures var i, attrs := poll.items[k].indicator, FreshAttrs(cfg, poll.items[k].attrs, poll.now);
            var t := Apply(cfg, Run(cfg, Apply(cfg, s, Flush(at, before)), cs), poll);
            && i in t.view && t.view[i] == Visible(attrs)
            && i in t.table && t.table[i].attrs == attrs && t.table[i].withdrawn.None? && t.table[i].lastRun == poll.now
  {
    var i := poll.items[k].indicator;
    var flushed := Apply(cfg, s, Flush(at, before));
    assert OutOfFeed(flushed, i);
    RunKeepsOut(cfg, flushed, cs, i);
    var u := Run(cfg, flushed, cs);
    OutComesBack(cfg, u.(polled := poll.now, clock := poll.now), poll.now, Threshold(cfg, u, poll.now), poll.items, k);
  }

  lemma {:induction false} OutComesBack(cfg: Config, s: State, now: int, threshold: int, items: seq<Item>, k: nat)
    requires ListedOnce(items, k) && OutOfFeed(s, items[k].indicator) && threshold > 0
    requires ProcessItems(cfg, s, now, threshold, items).1
    requires var limit := CalcAgeOut(cfg, FreshAttrs(cfg, items[k].attrs, now)); limit.Some? ==> limit.value >= now
    ensures var i, attrs := items[k].indicator, FreshAttrs(cfg, items[k].attrs, now);
            var t := ProcessItems(cfg, s, now, threshold, items).0;
            && i in t.view && t.view[i] == Visible(attrs)
            && i in t.table && t.table[i].attrs == attrs && t.table[i].withdrawn.None? && t.table[i].lastRun == now
    decreases |items|
  {
    var i, u := items[k].indicator, ProcessItem(cfg, s, now, threshold, items[0]).0;
    if k == 0 {
      OtherItems(cfg, u, now, threshold, items[1..], i);
    } else {
      OtherItem(cfg, s, now, threshold, items[0], i);
      OutComesBack(cfg, u, now, threshold, items[1..], k - 1);
    }
  }

  // ---------- rules on last_seen ----------

  /** The documented meaning of a rule on last_seen, the limit counts from the latest listing, holds
      of a refresh exactly if the feed gives last_seen as the time of the poll, or gives
      none and the row was entered at that very time. */
  lemma LastSeenExactly(cfg: Config, s: State, now: int, item: Item, offset: int)
    requires item.indicator in s.table && Refresh(cfg, s, now, item).1
    requires var old_ := s.table[item.indicator].attrs;
             HasRule(cfg, UpdateAttributes(cfg, old_, item.attrs), Some(Rule("last_seen", offset)))
    ensures Refresh(cfg, s, now, item).0.table[item.indicator].ageOut == now + offset <==>
            Num(now) == if "last_seen" in item.attrs then item.attrs["last_seen"]
                        else Get(s.table[item.indicator].attrs, "last_seen")
  {
    LimitExactly(cfg, UpdateAttributes(cfg, s.table[item.indicator].attrs, item.attrs), now + offset);
  }

  function OnFirstSeen(rule: Option<Rule>): Option<Rule> {
    if rule.Some? && rule.value.base == "last_seen" then Some(rule.value.(base := "first_seen")) else rule
  }

  /** The same miner with first_seen for last_seen in every age-out rule. */
  function FirstSeenOnly(cfg: Config): Config {
    cfg.(ageOutOf := map t | t in cfg.ageOutOf :: OnFirstSeen(cfg.ageOutOf[t]),
         ageOutDefault := OnFirstSeen(cfg.ageOutDefault))
  }

  ghost predicate SeenAtOnce(a: Attrs) { Get(a, "last_seen") == Get(a, "first_seen") }

  ghost predicate AllSeenAtOnce(s: State) {
    forall i :: i in s.table ==> SeenAtOnce(s.table[i].attrs)
  }

  predicate Unseen(a: Attrs) { "last_seen" !in a && "first_seen" !in a }

  lemma SameLimit(cfg: Config, a: Attrs)
    requires SeenAtOnce(a)
    ensures CalcAgeOut(FirstSeenOnly(cfg), a) == CalcAgeOut(cfg, a)
  {
  }

  lemma SameMerge(cfg: Config, old_: Attrs, item: Item)
    requires SeenAtOnce(old_) && Unseen(item.attrs)
    ensures MergeOf(FirstSeenOnly(cfg), old_, item) == MergeOf(cfg, old_, item)
    ensures SeenAtOnce(UpdateAttributes(cfg, old_, item.attrs))
  {
    SameLimit(cfg, UpdateAttributes(cfg, old_, item.attrs));
    assert CompareAttributes(FirstSeenOnly(cfg), old_, item.attrs, item.missingFirst) ==
           CompareAttributes(cfg, old_, item.attrs, item.missingFirst) by {
      assert forall k :: Missing(FirstSeenOnly(cfg), old_, item.attrs, k) <==> Missing(cfg, old_, item.attrs, k);
    }
  }

  lemma SameEnter(cfg: Config, s: State, now: int, item: Item)
    requires AllSeenAtOnce(s) && Unseen(item.attrs)
    ensures Enter(FirstSeenOnly(cfg), s, now, item) == Enter(cfg, s, now, item)
    ensures AllSeenAtOnce(Enter(cfg, s, now, item).0)
  {
    SameLimit(cfg, FreshAttrs(cfg, item.attrs, now));
  }

  lemma SameRefresh(cfg: Config, s: State, now: int, item: Item)
    requires AllSeenAtOnce(s) && Unseen(item.attrs) && item.indicator in s.table
    ensures Refresh(FirstSeenOnly(cfg), s, now, item) == Refresh(cfg, s, now, item)
    ensures AllSeenAtOnce(Refresh(cfg, s, now, item).0)
  {
    SameMerge(cfg, s.table[item.indicator].attrs, item);
  }

  lemma SameItem(cfg: Config, s: State, now: int, threshold: int, item: Item)
    requires AllSeenAtOnce(s) && Unseen(item.attrs)
    ensures ProcessItem(FirstSeenOnly(cfg), s, now, threshold, item) == ProcessItem(cfg, s, now, threshold, item)
    ensures AllSeenAtOnce(ProcessItem(cfg, s, now, threshold, item).0)
  {
    var status := StatusOf(s.table, item.indicator, now, threshold);
    if status.NX? || !status.inFeed {
      SameEnter(cfg, s, now, item);
    } else if !status.marked && !status.aged {
      SameRefresh(cfg, s, now, item);
    }
  }

  lemma {:induction false} SameItems(cfg: Config, s: State, now: int, threshold: int, items: seq<Item>)
    requires AllSeenAtOnce(s) && forall k :: 0 <= k < |items| ==> Unseen(items[k].attrs)
    ensures ProcessItems(FirstSeenOnly(cfg), s, now, threshold, items) == ProcessItems(cfg, s, now, threshold, items)
    ensures AllSeenAtOnce(ProcessItems(cfg, s, now, threshold, items).0)
    decreases |items|
  {
    if items != [] {
      SameItem(cfg, s, now, threshold, items[0]);
      SameItems(cfg, ProcessItem(cfg, s, now, threshold, items[0]).0, now, threshold, items[1..]);
    }
  }

  lemma SameStep(cfg: Config, s: State, c: Command)
    requires AllSeenAtOnce(s)
    requires c.Attempt? ==> forall k :: 0 <= k < |c.items| ==> Unseen(c.items[k].attrs)
    ensures Apply(FirstSeenOnly(cfg), s, c) == Apply(cfg, s, c) && AllSeenAtOnce(Apply(cfg, s, c))
  {
    if c.Attempt? {
      SameItems(cfg, s.(polled := c.now, clock := c.now), c.now, Threshold(cfg, s, c.now), c.items);
    }
  }

  lemma {:induction false} SameRun(cfg: Config, s: State, cs: seq<Command>, feed: iset<Attrs>)
    requires AllSeenAtOnce(s) && FromFeed(cs, feed) && forall a :: a in feed ==> Unseen(a)
    ensures Run(FirstSeenOnly(cfg), s, cs) == Run(cfg, s, cs)
    decreases |cs|
  {
    if cs != [] {
      SameStep(cfg, s, cs[0]);
      SameRun(cfg, Apply(cfg, s, cs[0]), cs[1..], feed);
    }
  }

  /** For a feed that gives neither attribute, a rule on last_seen is a rule on first_seen: in every
      run of every command both miners reach the same table and announce the same. */
  lemma LastSeenIsFirstSeen(cfg: Config, clock: int, cs: seq<Command>, feed: iset<Attrs>)
    requires FromFeed(cs, feed) && forall a :: a in feed ==> Unseen(a)
    ensures Run(FirstSeenOnly(cfg), EmptyTable(clock), cs) == Run(cfg, EmptyTable(clock), cs)
  {
    SameRun(cfg, EmptyTable(clock), cs, feed);
  }

  const HOUR_CONFIG := Config("feed", map[], 3600, map[], Some(Rule("last_seen", 3600000)))
  const LISTED := Item("203.0.113.1", map["type" := Text("IPv4")], false)

  /** LISTED has been polled once, at 10000000, and again at the given time. */
  function ListedAgain(again: int): State {
    var attrs := FreshAttrs(HOUR_CONFIG, LISTED.attrs, 10000000);
    State(map[LISTED.indicator := Row(attrs, again, 13600000, None)], Some(again),
          map[LISTED.indicator := Visible(attrs)], again, again)
  }

  /** With an hour's limit on last_seen, an indicator listed by every poll is withdrawn a
      minute after the second of them, an hour and a minute after the first. */
  lemma ListedYetWithdrawn()
    ensures var first := Attempt(10000000, 10000000, [LISTED], true);
            var second := Attempt(13600000, 13600000, [LISTED], true);
            var polled := Run(HOUR_CONFIG, EmptyTable(0), [first, second]);
            && LISTED.indicator in polled.table && polled.table[LISTED.indicator].lastRun == 13600000
            && LISTED.indicator in polled.view
            && Apply(HOUR_CONFIG, polled, AgeOut(13660000, {})).view == map[]
  {
    var first := Attempt(10000000, 10000000, [LISTED], true);
    var second := Attempt(13600000, 13600000, [LISTED], true);
    FirstListing();
    SecondListing();
    assert [first, second][1..] == [second] && [second][1..] == [];
    var one := ListedAgain(10000000);
    assert Run(HOUR_CONFIG, one, [second]) == Run(HOUR_CONFIG, Apply(HOUR_CONFIG, one, second), []);
  }

  lemma FirstListing()
    ensures Apply(HOUR_CONFIG, EmptyTable(0), Attempt(10000000, 10000000, [LISTED], true)) == ListedAgain(10000000)
  {
    PollOfOne(HOUR_CONFIG, EmptyTable(0), 10000000, LISTED);
  }

  lemma SecondListing()
    ensures Apply(HOUR_CONFIG, ListedAgain(10000000), Attempt(13600000, 13600000, [LISTED], true))
            == ListedAgain(13600000)
  {
    PollOfOne(HOUR_CONFIG, ListedAgain(10000000), 13600000, LISTED);
    var s := ListedAgain(10000000).(polled := 13600000, clock := 13600000);
    SameListingIsSilent(HOUR_CONFIG, s, 13600000, LISTED);
    assert ProcessItem(HOUR_CONFIG, s, 13600000, 10000000, LISTED) == Refresh(HOUR_CONFIG, s, 13600000, LISTED);
  }

  lemma PollOfOne(cfg: Config, s: State, now: int, item: Item)
    ensures var (t, ok) := ProcessItem(cfg, s.(polled := now, clock := now), now, Threshold(cfg, s, now), item);
            Apply(cfg, s, Attempt(now, now, [item], true)) == if ok then t.(lastSuccess := Some(now)) else t
  {
    var (t, ok) := ProcessItem(cfg, s.(polled := now, clock := now), now, Threshold(cfg, s, now), item);
    assert [item][1..] == [];
    assert ProcessItems(cfg, t, now, Threshold(cfg, s, now), []) == (t, true);
  }
}
