/** The table of a polling miner and what the nodes below it have been told. */
module BasePoller {
  import opened Options

  datatype Value = Null | Num(n: int) | Text(s: string) | Names(names: seq<string>)
  type Attrs = map<string, Value>

  /** A stored indicator: its attributes, and the three reserved ones the miner
      keeps for itself (_last_run, _age_out, _withdrawn). */
  datatype Row = Row(attrs: Attrs, lastRun: int, ageOut: int, withdrawn: Option<int>)

  datatype Rule = Rule(base: string, offset: int)
  datatype Config = Config(
    sourceName: string,
    template: Attrs,                        // attributes given to every new indicator
    interval: int,                          // seconds between polls
    ageOutOf: map<string, Option<Rule>>,    // per indicator type
    ageOutDefault: Option<Rule>)

  const MAX_AGE_OUT := (0x1_0000_0000 - 1) * 1000

  datatype State = State(
    table: map<string, Row>,
    lastSuccess: Option<int>,               // last_successful_run
    view: map<string, Attrs>,               // announced downstream and not withdrawn
    polled: int,                            // time of the latest polling attempt
    clock: int)                             // latest time any command has read

  /** missingFirst: in the stored row, an attribute that the feed no longer gives
      comes before the one without a name (dictionaries keep an order, maps do not). */
  datatype Item = Item(indicator: string, attrs: Attrs, missingFirst: bool)

  /** before: the rows that a query yields before the first one whose emission raises. */
  datatype Command =
    | Attempt(lastrun: int, now: int, items: seq<Item>, completes: bool)
    | AgeOut(now: int, before: set<string>)
    | SuddenDeath
    | CollectGarbage(now: int)
    | Flush(now: int, before: set<string>)
    | Rebuild(before: set<string>)

  // ---------- attributes ----------

  /** Looking at the first character of an empty key raises. */
  predicate Nameless(a: Attrs) { "" in a }

  predicate Hidden(k: string) { k != "" && (k[0] == '_' || k[0] == '$') }

  function Get(a: Attrs, k: string): Value { if k in a then a[k] else Null }

  function Visible(a: Attrs): Attrs { map k | k in a && !Hidden(k) :: a[k] }

  /** The same to a receiver: hidden keys aside, an attribute that is None counts as absent. */
  ghost predicate SameView(a: Attrs, b: Attrs) {
    forall k :: !Hidden(k) ==> Get(a, k) == Get(b, k)
  }

  predicate Standard(k: string) { k == "sources" || k == "last_seen" || k == "first_seen" }

  predicate Missing(cfg: Config, oa: Attrs, na: Attrs, k: string) {
    k in oa && k != "" && !Standard(k) && k !in cfg.template && !Hidden(k) && k !in na
  }

  /** None where the original raises: at the key without a name, unless an attribute
      missing from the feed comes first. */
  function CompareAttributes(cfg: Config, oa: Attrs, na: Attrs, missingFirst: bool): Option<bool> {
    var missing := exists k | k in oa :: Missing(cfg, oa, na, k);
    if Nameless(oa) && "" !in cfg.template && !(missing && missingFirst) then None
    else if missing then Some(false)
    else Some(forall k | k in na :: Get(oa, k) == na[k])
  }

  /** Deciding whether to keep the key without a name raises, unless feed or template give it. */
  predicate UpdateRaises(cfg: Config, current: Attrs, new_: Attrs) {
    Nameless(current) && !Nameless(new_) && !Nameless(cfg.template)
  }

  function UpdateAttributes(cfg: Config, current: Attrs, new_: Attrs): Attrs {
    (map k | k in current && (k in new_ || k in cfg.template || Standard(k) || Hidden(k)) :: current[k]) + new_
  }

  /** None where the original raises: a missing or non-numeric base attribute, or an unhashable type. */
  function CalcAgeOut(cfg: Config, attrs: Attrs): Option<int> {
    var t := Get(attrs, "type");
    if t.Names? then None else
    var sel := if t.Text? && t.s in cfg.ageOutOf then cfg.ageOutOf[t.s] else cfg.ageOutDefault;
    if sel.None? then Some(MAX_AGE_OUT)
    else if Get(attrs, sel.value.base).Num? then Some(attrs[sel.value.base].n + sel.value.offset)
    else None
  }

  /** Where the comparison does not raise, attributes compare equal exactly when
      merging loses no key and changes no value, None counting as absent. */
  lemma CompareExact(cfg: Config, oa: Attrs, na: Attrs, missingFirst: bool)
    ensures var eq := CompareAttributes(cfg, oa, na, missingFirst);
            var merged := UpdateAttributes(cfg, oa, na);
            eq.Some? ==> (eq.value <==> oa.Keys <= merged.Keys && forall k :: Get(merged, k) == Get(oa, k))
  {
    var m := UpdateAttributes(cfg, oa, na);
    if oa.Keys <= m.Keys && forall k :: Get(m, k) == Get(oa, k) {
      forall k | k in oa ensures !Missing(cfg, oa, na, k) {
        assert k in m.Keys;
      }
      forall k | k in na ensures Get(oa, k) == na[k] {
        assert Get(m, k) == Get(oa, k);
      }
    } else if k :| k in oa && k !in m {
      assert k != "" ==> Missing(cfg, oa, na, k);
    }
  }

  // ---------- rows ----------

  /** IndicatorStatus: the four bits of an indicator's state. */
  datatype Status = NX | Known(inFeed: bool, aged: bool, marked: bool)

  function StatusOf(table: map<string, Row>, i: string, now: int, threshold: int): Status {
    if i !in table then NX
    else Known(table[i].lastRun >= threshold, table[i].ageOut < now, table[i].withdrawn.Some?)
  }

  function FreshAttrs(cfg: Config, attrs: Attrs, now: int): Attrs {
    cfg.template["sources" := Names([cfg.sourceName])]["last_seen" := Num(now)]["first_seen" := Num(now)] + attrs
  }

  /** Store a row, and announce it if asked to. */
  function Store(s: State, i: string, r: Row, emit: bool): State {
    s.(table := s.table[i := r], view := if emit then s.view[i := Visible(r.attrs)] else s.view)
  }

  /** Store a row, then announce it; false where announcing raises, the row being stored. */
  function Announce(s: State, i: string, r: Row): (State, bool) {
    (Store(s, i, r, !Nameless(r.attrs)), !Nameless(r.attrs))
  }

  /** An indicator that is new, or has left the feed and come back. */
  function Enter(cfg: Config, s: State, now: int, item: Item): (State, bool) {
    var attrs := FreshAttrs(cfg, item.attrs, now);
    match CalcAgeOut(cfg, attrs)
    case None => (s, false)
    case Some(limit) =>
      var r := Row(attrs, now, limit, None);
      if limit >= now then Announce(s, item.indicator, r) else (Store(s, item.indicator, r, false), true)
  }

  /** Comparing a listed item with a stored row, and merging it into the row. */
  datatype Merge = Raises | Merged(eq: bool, attrs: Attrs, limit: int)

  function MergeOf(cfg: Config, old_: Attrs, item: Item): Merge {
    match CompareAttributes(cfg, old_, item.attrs, item.missingFirst)
    case None => Raises
    case Some(eq) =>
      if UpdateRaises(cfg, old_, item.attrs) then Raises else
      var attrs := UpdateAttributes(cfg, old_, item.attrs);
      match CalcAgeOut(cfg, attrs)
      case None => Raises
      case Some(limit) => Merged(eq, attrs, limit)
  }

  /** An indicator in the feed, within its limit and announced. */
  function Refresh(cfg: Config, s: State, now: int, item: Item): (State, bool)
    requires item.indicator in s.table
  {
    match MergeOf(cfg, s.table[item.indicator].attrs, item)
    case Raises => (s, false)
    case Merged(eq, attrs, limit) =>
      var r := Row(attrs, now, limit, None);
      if !eq && limit >= now then Announce(s, item.indicator, r) else (Store(s, item.indicator, r, false), true)
  }

  /** One indicator of a poll: the state reached, and false where something raises on the way. */
  function ProcessItem(cfg: Config, s: State, now: int, threshold: int, item: Item): (State, bool) {
    var i := item.indicator;
    var status := StatusOf(s.table, i, now, threshold);
    if status.NX? || !status.inFeed then Enter(cfg, s, now, item)
    else if status.marked then (Store(s, i, s.table[i].(lastRun := now, withdrawn := Some(now)), false), true)
    else if status.aged then (Store(s, i, s.table[i].(lastRun := now), false), true)
    else Refresh(cfg, s, now, item)
  }

  /** The items of a poll in order, up to the first that raises. */
  function ProcessItems(cfg: Config, s: State, now: int, threshold: int, items: seq<Item>): (State, bool)
    decreases |items|
  {
    if items == [] then (s, true) else
    var (t, ok) := ProcessItem(cfg, s, now, threshold, items[0]);
    if ok then ProcessItems(cfg, t, now, threshold, items[1..]) else (t, false)
  }

  function Threshold(cfg: Config, s: State, now: int): int {
    match s.lastSuccess case None => now - cfg.interval * 1000 case Some(l) => l
  }

  predicate Expired(r: Row, now: int) { r.ageOut <= now - 1 && r.withdrawn.None? }

  function ExpiredRows(table: map<string, Row>, now: int): set<string> {
    set i | i in table && Expired(table[i], now)
  }

  function UnmarkedRows(table: map<string, Row>): set<string> {
    set i | i in table && table[i].withdrawn.None?
  }

  /** The rows a loop that emits gets through: all, or those before the first that raises. */
  function Reached(table: map<string, Row>, rows: set<string>, before: set<string>): set<string>
    requires rows <= table.Keys
  {
    if exists i | i in rows :: Nameless(table[i].attrs)
    then set i | i in rows && i in before && !Nameless(table[i].attrs)
    else rows
  }

  function Kill(r: Row, last: int): Row {
    if r.lastRun <= last - 1 then r.(ageOut := last - 1) else r
  }

  predicate Garbage(r: Row, now: int, last: int) {
    r.withdrawn.Some? && r.withdrawn.value <= now && r.lastRun < last - 1
  }

  function Apply(cfg: Config, s: State, c: Command): State {
    match c
    case Attempt(lastrun, now, items, completes) =>
      var (t, ok) := ProcessItems(cfg, s.(polled := now, clock := now), now, Threshold(cfg, s, now), items);
      if ok && completes then t.(lastSuccess := Some(lastrun)) else t
    case AgeOut(now, before) =>
      var reached := Reached(s.table, ExpiredRows(s.table, now), before);
      s.(table := map i | i in s.table :: if i in reached then s.table[i].(withdrawn := Some(now)) else s.table[i],
         view := s.view - reached, clock := now)
    case SuddenDeath =>
      if s.lastSuccess.None? then s
      else s.(table := map i | i in s.table :: Kill(s.table[i], s.lastSuccess.value))
    case CollectGarbage(now) =>
      if s.lastSuccess.None? then s.(clock := now)
      else s.(table := map i | i in s.table && !Garbage(s.table[i], now, s.lastSuccess.value) :: s.table[i],
              clock := now)
    case Flush(now, before) =>
      var reached := Reached(s.table, UnmarkedRows(s.table), before);
      s.(table := map i | i in s.table ::
           if i in reached then s.table[i].(withdrawn := Some(now), lastRun := 0) else s.table[i],
         view := s.view - reached, clock := now)
    case Rebuild(before) =>
      var reached := Reached(s.table, s.table.Keys, before);
      s.(view := s.view + map i | i in s.table && i in reached :: Visible(s.table[i].attrs))
  }

  /** The clock does not go back, and moves between polling attempts. */
  predicate Timely(s: State, c: Command) {
    match c
    case Attempt(lastrun, now, _, _) => s.clock <= lastrun <= now && s.polled < lastrun
    case AgeOut(now, _) => s.clock <= now
    case CollectGarbage(now) => s.clock <= now
    case Flush(now, _) => s.clock <= now
    case SuddenDeath => true
    case Rebuild(_) => true
  }

  // ---------- invariant ----------

  /** Everything announced has a row that is not marked as withdrawn. */
  ghost predicate NoOrphans(s: State) {
    forall i :: i in s.view ==> i in s.table && s.table[i].withdrawn.None?
  }

  /** An unmarked row that is not announced has passed its age-out limit. */
  ghost predicate NothingMissing(s: State) {
    forall i :: i in s.table && s.table[i].withdrawn.None? && i !in s.view ==> s.table[i].ageOut < s.clock
  }

  /** What was last announced is what the row says, until the row passes its limit. */
  ghost predicate ValuesCurrent(s: State) {
    forall i :: i in s.view && i in s.table && s.table[i].ageOut >= s.clock ==> SameView(s.view[i], s.table[i].attrs)
  }

  ghost predicate Faithful(s: State) {
    NoOrphans(s) && NothingMissing(s) && ValuesCurrent(s)
  }

  /** Faithful, rows with a nameless attribute apart. */
  ghost predicate InStep(s: State) {
    && NoOrphans(s)
    && (forall i :: i in s.table && !Nameless(s.table[i].attrs) && s.table[i].withdrawn.None? && i !in s.view ==>
          s.table[i].ageOut < s.clock)
    && (forall i :: i in s.view && i in s.table && !Nameless(s.table[i].attrs) && s.table[i].ageOut >= s.clock ==>
          SameView(s.view[i], s.table[i].attrs))
  }

  ghost predicate AllNamed(s: State) {
    forall i :: i in s.table ==> !Nameless(s.table[i].attrs)
  }

  ghost predicate TimesInv(s: State) {
    && 0 <= s.polled <= s.clock
    && (s.lastSuccess.Some? ==> s.lastSuccess.value <= s.polled)
    && forall i :: i in s.table ==>
         s.table[i].lastRun <= s.polled && (s.table[i].withdrawn.Some? ==> s.table[i].withdrawn.value <= s.clock)
  }

  ghost predicate Inv(s: State) {
    InStep(s) && TimesInv(s)
  }

  ghost predicate NoneMarked(s: State) {
    forall i :: i in s.table ==> s.table[i].withdrawn.None?
  }

  lemma SameViewTransitive(a: Attrs, b: Attrs, c: Attrs)
    requires SameView(a, b) && forall k :: Get(c, k) == Get(b, k)
    ensures SameView(a, c)
  {
  }

  /** Storing one row: what it has to satisfy for the whole to stay in step. */
  lemma StoreKeepsInv(s: State, i: string, r: Row, emit: bool)
    requires Inv(s) && s.polled == s.clock && r.lastRun == s.clock
    requires r.withdrawn.Some? ==> r.withdrawn.value == s.clock && i !in s.view && !emit
    requires r.withdrawn.None? && !emit && i !in s.view && !Nameless(r.attrs) ==> r.ageOut < s.clock
    requires !emit && i in s.view && r.ageOut >= s.clock && !Nameless(r.attrs) ==> SameView(s.view[i], r.attrs)
    ensures Inv(Store(s, i, r, emit))
  {
    var t := Store(s, i, r, emit);
    forall j | j in t.view && j in t.table && !Nameless(t.table[j].attrs) && t.table[j].ageOut >= t.clock
      ensures SameView(t.view[j], t.table[j].attrs)
    {
      if j != i {
        assert t.view[j] == s.view[j];
      }
    }
  }

  lemma EnterKeepsInv(cfg: Config, s: State, item: Item)
    requires Inv(s) && s.polled == s.clock
    ensures Inv(Enter(cfg, s, s.clock, item).0)
  {
    var attrs := FreshAttrs(cfg, item.attrs, s.clock);
    if CalcAgeOut(cfg, attrs).Some? {
      var limit := CalcAgeOut(cfg, attrs).value;
      StoreKeepsInv(s, item.indicator, Row(attrs, s.clock, limit, None), limit >= s.clock && !Nameless(attrs));
    }
  }

  /** Refreshing a row, also when comparing, merging or announcing raises. */
  lemma RefreshKeepsInv(cfg: Config, s: State, item: Item)
    requires Inv(s) && s.polled == s.clock && item.indicator in s.table
    requires s.table[item.indicator].withdrawn.None? && s.table[item.indicator].ageOut >= s.clock
    ensures Inv(Refresh(cfg, s, s.clock, item).0)
  {
    var i := item.indicator;
    var old_ := s.table[i].attrs;
    var attrs := UpdateAttributes(cfg, old_, item.attrs);
    var eq := CompareAttributes(cfg, old_, item.attrs, item.missingFirst);
    if eq.Some? && !UpdateRaises(cfg, old_, item.attrs) && CalcAgeOut(cfg, attrs).Some? {
      var limit := CalcAgeOut(cfg, attrs).value;
      assert Nameless(old_) ==> Nameless(attrs);
      assert !Nameless(old_) ==> i in s.view;
      if eq.value && !Nameless(attrs) {
        CompareExact(cfg, old_, item.attrs, item.missingFirst);
        SameViewTransitive(s.view[i], old_, attrs);
      }
      StoreKeepsInv(s, i, Row(attrs, s.clock, limit, None), !eq.value && limit >= s.clock && !Nameless(attrs));
    }
  }

  ghost predicate SameTimes(s: State, t: State) {
    t.polled == s.polled && t.clock == s.clock && t.lastSuccess == s.lastSuccess
  }

  lemma ItemKeepsInv(cfg: Config, s: State, threshold: int, item: Item)
    requires Inv(s) && s.polled == s.clock
    ensures var t := ProcessItem(cfg, s, s.clock, threshold, item).0; Inv(t) && SameTimes(s, t)
  {
    var i := item.indicator;
    var status := StatusOf(s.table, i, s.clock, threshold);
    if status.NX? || !status.inFeed {
      EnterKeepsInv(cfg, s, item);
    } else if status.marked {
      StoreKeepsInv(s, i, s.table[i].(lastRun := s.clock, withdrawn := Some(s.clock)), false);
    } else if status.aged {
      StoreKeepsInv(s, i, s.table[i].(lastRun := s.clock), false);
    } else {
      RefreshKeepsInv(cfg, s, item);
    }
  }

  lemma {:induction false} ItemsKeepInv(cfg: Config, s: State, threshold: int, items: seq<Item>)
    requires Inv(s) && s.polled == s.clock
    ensures var t := ProcessItems(cfg, s, s.clock, threshold, items).0; Inv(t) && SameTimes(s, t)
    decreases |items|
  {
    if items != [] {
      ItemKeepsInv(cfg, s, threshold, items[0]);
      var (t, ok) := ProcessItem(cfg, s, s.clock, threshold, items[0]);
      if ok {
        ItemsKeepInv(cfg, t, threshold, items[1..]);
      }
    }
  }

  /** Every command but a rebuild keeps table and downstream view in step, whatever raises in it. */
  lemma ApplyKeepsInv(cfg: Config, s: State, c: Command)
    requires Inv(s) && Timely(s, c) && !c.Rebuild?
    ensures Inv(Apply(cfg, s, c))
  {
    match c {
      case Attempt(lastrun, now, items, _) =>
        ItemsKeepInv(cfg, s.(polled := now, clock := now), Threshold(cfg, s, now), items);
      case AgeOut(now, before) => AgeOutKeepsInv(cfg, s, now, before);
      case Flush(now, before) => FlushKeepsInv(cfg, s, now, before);
      case CollectGarbage(now) =>
      case SuddenDeath =>
    }
  }

  lemma AgeOutKeepsInv(cfg: Config, s: State, now: int, before: set<string>)
    requires Inv(s) && s.clock <= now
    ensures Inv(Apply(cfg, s, AgeOut(now, before)))
  {
    var reached := Reached(s.table, ExpiredRows(s.table, now), before);
    assert forall i :: i in reached ==> i in s.table && Expired(s.table[i], now);
  }

  lemma FlushKeepsInv(cfg: Config, s: State, now: int, before: set<string>)
    requires Inv(s) && s.clock <= now
    ensures Inv(Apply(cfg, s, Flush(now, before)))
  {
    var reached := Reached(s.table, UnmarkedRows(s.table), before);
    assert forall i :: i in reached ==> i in s.table && s.table[i].withdrawn.None?;
  }

  /** A rebuild announces marked rows as well: it keeps the two in step exactly when
      no row that it gets through is marked. */
  lemma RebuildKeepsInv(cfg: Config, s: State, before: set<string>)
    requires Inv(s)
    ensures Inv(Apply(cfg, s, Rebuild(before))) <==>
            forall i :: i in Reached(s.table, s.table.Keys, before) ==> s.table[i].withdrawn.None?
  {
    var t := Apply(cfg, s, Rebuild(before));
    if Inv(t) {
      forall i | i in Reached(s.table, s.table.Keys, before) ensures s.table[i].withdrawn.None? {
        assert i in t.view;
      }
    }
  }

  /** With every attribute named a rebuild repairs any view of the table's indicators,
      exactly when no row is marked. */
  lemma RebuildExactly(cfg: Config, s: State, before: set<string>)
    requires s.view.Keys <= s.table.Keys && AllNamed(s)
    ensures Faithful(Apply(cfg, s, Rebuild(before))) <==> NoneMarked(s)
  {
    var t := Apply(cfg, s, Rebuild(before));
    assert Reached(s.table, s.table.Keys, before) == s.table.Keys;
    if Faithful(t) {
      forall i | i in s.table ensures s.table[i].withdrawn.None? {
        assert i in t.view;
      }
    }
  }

  /** An age-out withdraws every expired row, in whatever order they come, exactly when
      none of them has a nameless attribute. */
  lemma AgeOutCompletes(cfg: Config, s: State, now: int)
    ensures (forall before :: ExpiredRows(Apply(cfg, s, AgeOut(now, before)).table, now) == {})
            <==> forall i :: i in ExpiredRows(s.table, now) ==> !Nameless(s.table[i].attrs)
  {
    var none: set<string> := {};
    if i :| i in ExpiredRows(s.table, now) && Nameless(s.table[i].attrs) {
      assert i in ExpiredRows(Apply(cfg, s, AgeOut(now, none)).table, now);
    } else {
      forall before ensures ExpiredRows(Apply(cfg, s, AgeOut(now, before)).table, now) == {} {
        assert Reached(s.table, ExpiredRows(s.table, now), before) == ExpiredRows(s.table, now);
      }
    }
  }
}
