/** When exactly the view below a polling miner shows the table: what is announced
    within its limit has the row's value, and nothing within its limit is missing. */
module PollerFaithful {
  import opened Options
  import opened BasePoller
  import opened PollerTheorems

  // ---------- one item ----------

  /** Merging the item into the row would change what receivers see, cannot be announced
      because of a nameless attribute, and leaves the row within its limit. */
  ghost predicate Stales(cfg: Config, old_: Attrs, item: Item, now: int) {
    var m := MergeOf(cfg, old_, item);
    m.Merged? && m.limit >= now && Nameless(m.attrs) && !SameView(old_, m.attrs)
  }

  ghost predicate CurrentAt(s: State, i: string) {
    i in s.view && i in s.table && s.table[i].ageOut >= s.clock ==> SameView(s.view[i], s.table[i].attrs)
  }

  lemma EqIsSameView(cfg: Config, old_: Attrs, item: Item)
    ensures var m := MergeOf(cfg, old_, item); m.Merged? && m.eq ==> SameView(old_, m.attrs)
  {
    CompareExact(cfg, old_, item.attrs, item.missingFirst);
  }

  lemma SameViewOfThree(a: Attrs, b: Attrs, c: Attrs)
    requires SameView(a, b)
    ensures SameView(a, c) <==> SameView(b, c)
  {
  }

  lemma VisibleIsSameView(a: Attrs)
    ensures SameView(Visible(a), a)
  {
  }

  /** A refresh keeps an announced value current exactly when it does not stale it. */
  lemma RefreshCurrentExactly(cfg: Config, s: State, item: Item)
    requires item.indicator in s.table && item.indicator in s.view
    requires SameView(s.view[item.indicator], s.table[item.indicator].attrs)
    ensures CurrentAt(Refresh(cfg, s, s.clock, item).0, item.indicator)
            <==> !Stales(cfg, s.table[item.indicator].attrs, item, s.clock)
  {
    var i := item.indicator;
    var old_ := s.table[i].attrs;
    var m := MergeOf(cfg, old_, item);
    if m.Merged? {
      EqIsSameView(cfg, old_, item);
      SameViewOfThree(s.view[i], old_, m.attrs);
      VisibleIsSameView(m.attrs);
    }
  }

  /** The item would leave the view unfaithful. */
  ghost predicate Spoils(cfg: Config, s: State, threshold: int, item: Item) {
    var i := item.indicator;
    var status := StatusOf(s.table, i, s.clock, threshold);
    if status.NX? || !status.inFeed then
      Unannounceable(cfg, item.attrs, s.clock) &&
      (i !in s.view || !SameView(s.view[i], FreshAttrs(cfg, item.attrs, s.clock)))
    else
      !status.marked && !status.aged && Stales(cfg, s.table[i].attrs, item, s.clock)
  }

  /** Storing one row keeps the view faithful exactly when it does so for that row. */
  lemma StoreFaithfulExactly(s: State, i: string, r: Row, emit: bool)
    requires Faithful(s) && r.withdrawn.None?
    ensures Faithful(Store(s, i, r, emit)) <==>
      emit || (r.ageOut >= s.clock ==> i in s.view && SameView(s.view[i], r.attrs))
  {
    var t := Store(s, i, r, emit);
    VisibleIsSameView(r.attrs);
    assert forall j :: j != i ==> (j in t.view <==> j in s.view) && (j in t.table <==> j in s.table);
    assert forall j :: j != i && j in t.view ==> t.view[j] == s.view[j];
    if !emit && r.ageOut >= s.clock && Faithful(t) {
      assert t.table[i] == r;
    }
    if emit || (r.ageOut >= s.clock ==> i in s.view && SameView(s.view[i], r.attrs)) {
      forall j | j in t.view && j in t.table && t.table[j].ageOut >= t.clock
        ensures SameView(t.view[j], t.table[j].attrs)
      {
        if j != i {
          assert t.table[j] == s.table[j];
        }
      }
    }
  }

  lemma EnterFaithfulExactly(cfg: Config, s: State, item: Item)
    requires Faithful(s)
    ensures Faithful(Enter(cfg, s, s.clock, item).0) <==>
            !(Unannounceable(cfg, item.attrs, s.clock) &&
              (item.indicator !in s.view || !SameView(s.view[item.indicator], FreshAttrs(cfg, item.attrs, s.clock))))
  {
    var attrs := FreshAttrs(cfg, item.attrs, s.clock);
    if CalcAgeOut(cfg, attrs).Some? {
      var r := Row(attrs, s.clock, CalcAgeOut(cfg, attrs).value, None);
      StoreFaithfulExactly(s, item.indicator, r, r.ageOut >= s.clock && !Nameless(attrs));
    }
  }

  lemma RefreshFaithfulExactly(cfg: Config, s: State, item: Item)
    requires Faithful(s) && item.indicator in s.table
    requires s.table[item.indicator].withdrawn.None? && s.table[item.indicator].ageOut >= s.clock
    ensures Faithful(Refresh(cfg, s, s.clock, item).0) <==>
            !Stales(cfg, s.table[item.indicator].attrs, item, s.clock)
  {
    var i := item.indicator;
    var old_ := s.table[i].attrs;
    assert i in s.view;
    match MergeOf(cfg, old_, item) {
      case Raises =>
      case Merged(eq, attrs, limit) =>
        EqIsSameView(cfg, old_, item);
        SameViewOfThree(s.view[i], old_, attrs);
        StoreFaithfulExactly(s, i, Row(attrs, s.clock, limit, None), !eq && limit >= s.clock && !Nameless(attrs));
    }
  }

  /** One item of a poll keeps the view faithful exactly when it does not spoil it. */
  lemma ItemFaithfulExactly(cfg: Config, s: State, threshold: int, item: Item)
    requires Inv(s) && Faithful(s) && s.polled == s.clock
    ensures Faithful(ProcessItem(cfg, s, s.clock, threshold, item).0) <==> !Spoils(cfg, s, threshold, item)
  {
    var i := item.indicator;
    var status := StatusOf(s.table, i, s.clock, threshold);
    if status.NX? || !status.inFeed {
      EnterFaithfulExactly(cfg, s, item);
    } else if status.marked {
      MarkedStaysFaithful(s, i, s.table[i].(lastRun := s.clock, withdrawn := Some(s.clock)));
    } else if status.aged {
      StoreFaithfulExactly(s, i, s.table[i].(lastRun := s.clock), false);
    } else {
      RefreshFaithfulExactly(cfg, s, item);
    }
  }

  lemma MarkedStaysFaithful(s: State, i: string, r: Row)
    requires Faithful(s) && i in s.table && s.table[i].withdrawn.Some? && r.withdrawn.Some?
    ensures Faithful(Store(s, i, r, false))
  {
  }

  // ---------- commands other than polls ----------

  lemma OtherKeepsFaithful(cfg: Config, s: State, c: Command)
    requires Inv(s) && Faithful(s) && Timely(s, c) && CleanRebuild(s, c) && !c.Attempt?
    ensures Faithful(Apply(cfg, s, c))
  {
    match c {
      case AgeOut(now, before) => ReachedAreRows(s.table, ExpiredRows(s.table, now), before);
      case Flush(now, before) => ReachedAreRows(s.table, UnmarkedRows(s.table), before);
      case Rebuild(before) => RebuildKeepsFaithful(cfg, s, before);
      case _ =>
    }
  }

  lemma ReachedAreRows(table: map<string, Row>, rows: set<string>, before: set<string>)
    requires rows <= table.Keys
    ensures Reached(table, rows, before) <= rows
  {
  }

  lemma RebuildKeepsFaithful(cfg: Config, s: State, before: set<string>)
    requires Faithful(s) && CleanRebuild(s, Rebuild(before))
    ensures Faithful(Apply(cfg, s, Rebuild(before)))
  {
    var t := Apply(cfg, s, Rebuild(before));
    forall i | i in t.view && i in t.table && t.table[i].ageOut >= t.clock
      ensures SameView(t.view[i], t.table[i].attrs)
    {
      VisibleIsSameView(t.table[i].attrs);
    }
  }
}
