/** The polling miner as an object: each actor command is a loop that rewrites
    rows of the table and publishes, proved against the command's specification. */
module PollerActor {
  import opened Options
  import opened BasePoller
  import Nodes

  /** What the miner publishes on its topic. */
  datatype Sent = Updated(indicator: string, value: Attrs) | Withdrawn(indicator: string)

  function Effect(view: map<string, Attrs>, m: Sent): map<string, Attrs> {
    if m.Updated? then view[m.indicator := m.value] else view - {m.indicator}
  }

  /** What receivers hold who apply the messages in order. */
  function Replay(known: map<string, Attrs>, sent: seq<Sent>): map<string, Attrs> {
    if sent == [] then known else Effect(Replay(known, sent[..|sent| - 1]), sent[|sent| - 1])
  }

  lemma ReplayOne(known: map<string, Attrs>, sent: seq<Sent>, m: Sent)
    ensures Replay(known, sent + [m]) == Effect(Replay(known, sent), m)
  {
    assert (sent + [m])[..|sent|] == sent;
  }

  /** A table of which the rows in done have been rewritten by f. */
  function Rewritten(table: map<string, Row>, done: set<string>, f: Row -> Row): map<string, Row> {
    map i | i in table :: if i in done then f(table[i]) else table[i]
  }

  lemma RewriteOne(table: map<string, Row>, done: set<string>, f: Row -> Row, i: string)
    requires i in table && i !in done
    ensures Rewritten(table, done, f)[i := f(table[i])] == Rewritten(table, done + {i}, f)
    ensures f(table[i]) == table[i] ==> Rewritten(table, done, f) == Rewritten(table, done + {i}, f)
  {
    assert Rewritten(table, done, f)[i := f(table[i])].Keys == Rewritten(table, done + {i}, f).Keys;
  }

  function Aged(now: int): Row -> Row {
    (r: Row) => if Expired(r, now) then r.(withdrawn := Some(now)) else r
  }

  function Flushed(now: int): Row -> Row {
    (r: Row) => if r.withdrawn.None? then r.(withdrawn := Some(now), lastRun := 0) else r
  }

  function VisibleRows(table: map<string, Row>, rows: set<string>): map<string, Attrs> {
    map i | i in table && i in rows :: Visible(table[i].attrs)
  }

  /** before is where a loop over rows has got to: all of them done, or a nameless one reached. */
  ghost predicate GotTo(table: map<string, Row>, rows: set<string>, before: set<string>)
    requires rows <= table.Keys
  {
    && (forall i :: i in before && i in rows ==> !Nameless(table[i].attrs))
    && (rows <= before || exists i :: i in rows && Nameless(table[i].attrs))
  }

  ghost predicate NoneNameless(table: map<string, Row>, rows: set<string>)
    requires rows <= table.Keys
  {
    forall i :: i in rows ==> !Nameless(table[i].attrs)
  }

  lemma GotToIsReached(table: map<string, Row>, rows: set<string>, before: set<string>)
    requires rows <= table.Keys && GotTo(table, rows, before)
    ensures Reached(table, rows, before) == before * rows
  {
  }

  lemma AgeOutIs(cfg: Config, s: State, now: int, before: set<string>)
    requires GotTo(s.table, ExpiredRows(s.table, now), before)
    ensures Apply(cfg, s, AgeOut(now, before)) ==
            s.(table := Rewritten(s.table, before, Aged(now)), view := s.view - (before * ExpiredRows(s.table, now)),
                clock := now)
  {
    GotToIsReached(s.table, ExpiredRows(s.table, now), before);
  }

  lemma FlushIs(cfg: Config, s: State, now: int, before: set<string>)
    requires GotTo(s.table, UnmarkedRows(s.table), before)
    ensures Apply(cfg, s, Flush(now, before)) ==
            s.(table := Rewritten(s.table, before, Flushed(now)), view := s.view - (before * UnmarkedRows(s.table)),
                clock := now)
  {
    GotToIsReached(s.table, UnmarkedRows(s.table), before);
  }

  lemma RebuildIs(cfg: Config, s: State, before: set<string>)
    requires GotTo(s.table, s.table.Keys, before) && before <= s.table.Keys
    ensures Apply(cfg, s, Rebuild(before)) == s.(view := s.view + VisibleRows(s.table, before))
  {
    GotToIsReached(s.table, s.table.Keys, before);
    assert before * s.table.Keys == before;
  }

  lemma AnnounceOne(v: map<string, Attrs>, table: map<string, Row>, done: set<string>, i: string)
    requires i in table && i !in done
    ensures (v + VisibleRows(table, done))[i := Visible(table[i].attrs)] == v + VisibleRows(table, done + {i})
  {
  }

  lemma WithdrawOne(v: map<string, Attrs>, rows: set<string>, done: set<string>, i: string)
    ensures i in rows ==> v - (done * rows) - {i} == v - ((done + {i}) * rows)
    ensures i !in rows ==> v - (done * rows) == v - ((done + {i}) * rows)
  {
    if i !in rows {
      assert done * rows == (done + {i}) * rows;
    }
  }

  class BasePollerFT {
    const cfg: Config
    ghost const known: map<string, Attrs>      // what the receivers held before
    var state: Nodes.FtState
    var table: map<string, Row>
    var lastSuccessfulRun: Option<int>
    var lastAgeoutRun: Option<int>
    var sent: seq<Sent>

    ghost function View(): map<string, Attrs>
      reads this`sent
    {
      Replay(known, sent)
    }

    /** The state of the specification; polled and clock are the times last read. */
    ghost function Value(polled: int, clock: int): State
      reads this`table, this`lastSuccessfulRun, this`sent
    {
      State(table, lastSuccessfulRun, View(), polled, clock)
    }

    constructor (cfg: Config, state: Nodes.FtState, table: map<string, Row>, lastSuccessfulRun: Option<int>,
                 ghost known: map<string, Attrs>)
      ensures this.cfg == cfg && this.state == state && this.known == known
      ensures this.table == table && this.lastSuccessfulRun == lastSuccessfulRun && sent == []
    {
      this.cfg, this.state, this.table, this.lastSuccessfulRun := cfg, state, table, lastSuccessfulRun;
      this.known := known;
      lastAgeoutRun, sent := None, [];
    }

    /** False where publishing raises. */
    method EmitUpdate(indicator: string, value: Attrs) returns (ok: bool)
      modifies this`sent
      ensures ok <==> !Nameless(value)
      ensures sent == if ok then old(sent) + [Updated(indicator, Visible(value))] else old(sent)
      ensures View() == if ok then old(View())[indicator := Visible(value)] else old(View())
    {
      if "" in value {
        return false;
      }
      var message := Updated(indicator, map k | k in value && !Hidden(k) :: value[k]);
      ReplayOne(known, sent, message);
      sent := sent + [message];
      ok := true;
    }

    method EmitWithdraw(indicator: string, value: Attrs) returns (ok: bool)
      modifies this`sent
      ensures ok <==> !Nameless(value)
      ensures sent == if ok then old(sent) + [Withdrawn(indicator)] else old(sent)
      ensures View() == if ok then old(View()) - {indicator} else old(View())
    {
      if "" in value {
        return false;
      }
      ReplayOne(known, sent, Withdrawn(indicator));
      sent := sent + [Withdrawn(indicator)];
      ok := true;
    }

    method DoAgeOut(now: int) returns (ghost before: set<string>)
      modifies this`table, this`sent, this`lastAgeoutRun
      ensures state != Nodes.STARTED ==> sent == old(sent) && table == old(table) && lastAgeoutRun == old(lastAgeoutRun)
      ensures state == Nodes.STARTED ==>
              forall p, c :: Value(p, now) == Apply(cfg, old(Value(p, c)), AgeOut(now, before))
      ensures state == Nodes.STARTED ==>
              lastAgeoutRun == if NoneNameless(old(table), ExpiredRows(old(table), now)) then Some(now)
                               else old(lastAgeoutRun)
    {
      before := {};
      if state != Nodes.STARTED {
        return;
      }
      ghost var t0, v0 := table, View();
      var completed: bool;
      completed, before := AgeOutRows(now);
      if completed {
        lastAgeoutRun := Some(now);
      }
      forall p, c { AgeOutIs(cfg, State(t0, lastSuccessfulRun, v0, p, c), now, before); }
    }

    /** The loop of DoAgeOut; false where publishing a withdraw raises. */
    method AgeOutRows(now: int) returns (completed: bool, ghost before: set<string>)
      modifies this`table, this`sent
      ensures table == Rewritten(old(table), before, Aged(now))
      ensures View() == old(View()) - (before * ExpiredRows(old(table), now))
      ensures GotTo(old(table), ExpiredRows(old(table), now), before)
      ensures completed <==> NoneNameless(old(table), ExpiredRows(old(table), now))
    {
      before := {};
      ghost var t0, v0, expired := table, View(), ExpiredRows(table, now);
      ghost var f := Aged(now);
      var todo := set i | i in table && table[i].ageOut <= now - 1;
      ghost var found := todo;
      assert expired <= found;
      while todo != {}
        invariant todo !! before && todo + before == found
        invariant forall i :: i in before && i in expired ==> !Nameless(t0[i].attrs)
        invariant table == Rewritten(t0, before, f)
        invariant View() == v0 - (before * expired)
      {
        var i :| i in todo;
        assert table[i] == t0[i];
        if table[i].withdrawn.None? {
          var ok := EmitWithdraw(i, table[i].attrs);
          if !ok {
            return false, before;
          }
          table := table[i := table[i].(withdrawn := Some(now))];
        }
        RewriteOne(t0, before, f, i);
        WithdrawOne(v0, expired, before, i);
        todo := todo - {i};
        before := before + {i};
      }
      completed := true;
    }

    method DoFlush(now: int) returns (ghost before: set<string>)
      modifies this`table, this`sent
      ensures state != Nodes.STARTED ==> sent == old(sent) && table == old(table)
      ensures state == Nodes.STARTED ==>
              forall p, c :: Value(p, now) == Apply(cfg, old(Value(p, c)), Flush(now, before))
    {
      before := {};
      if state != Nodes.STARTED {
        return;
      }
      ghost var t0, v0, unmarked := table, View(), UnmarkedRows(table);
      ghost var f := Flushed(now);
      var todo := table.Keys;
      while todo != {}
        invariant todo !! before && todo + before == t0.Keys
        invariant forall i :: i in before && i in unmarked ==> !Nameless(t0[i].attrs)
        invariant table == Rewritten(t0, before, f)
        invariant View() == v0 - (before * unmarked)
      {
        var i :| i in todo;
        assert table[i] == t0[i];
        if table[i].withdrawn.None? {
          var ok := EmitWithdraw(i, table[i].attrs);
          if !ok {
            break;
          }
          table := table[i := table[i].(withdrawn := Some(now), lastRun := 0)];
        }
        RewriteOne(t0, before, f, i);
        WithdrawOne(v0, unmarked, before, i);
        todo := todo - {i};
        before := before + {i};
      }
      forall p, c { FlushIs(cfg, State(t0, lastSuccessfulRun, v0, p, c), now, before); }
    }

    method DoSuddenDeath()
      modifies this`table
      ensures state != Nodes.STARTED ==> table == old(table)
      ensures state == Nodes.STARTED ==> forall p, c :: Value(p, c) == Apply(cfg, old(Value(p, c)), SuddenDeath)
      ensures table.Keys == old(table).Keys && forall i :: i in table ==>
        table[i] == if && state == Nodes.STARTED && lastSuccessfulRun.Some?
                       && old(table)[i].lastRun < lastSuccessfulRun.value
                    then old(table)[i].(ageOut := lastSuccessfulRun.value - 1) else old(table)[i]
    {
      if lastSuccessfulRun.None? || state != Nodes.STARTED {
        return;
      }
      var last := lastSuccessfulRun.value;
      ghost var t0 := table;
      ghost var f := (r: Row) => Kill(r, last);
      var todo := set i | i in table && table[i].lastRun <= last - 1;
      ghost var found, done: set<string> := todo, {};
      while todo != {}
        invariant todo !! done && todo + done == found
        invariant table == Rewritten(t0, done, f)
      {
        var i :| i in todo;
        RewriteOne(t0, done, f, i);
        todo := todo - {i};
        done := done + {i};
        table := table[i := table[i].(ageOut := last - 1)];
      }
      assert table == map i | i in t0 :: Kill(t0[i], last);
    }

    /** Without a successful run so far the comparison raises at the first marked row. */
    method DoCollectGarbage(now: int)
      modifies this`table
      ensures state != Nodes.STARTED ==> table == old(table)
      ensures state == Nodes.STARTED ==>
              forall p, c :: Value(p, now) == Apply(cfg, old(Value(p, c)), CollectGarbage(now))
    {
      if state != Nodes.STARTED || lastSuccessfulRun.None? {
        return;
      }
      var last := lastSuccessfulRun.value;
      ghost var t0 := table;
      var todo := set i | i in table && table[i].withdrawn.Some? && table[i].withdrawn.value <= now;
      ghost var queried := todo;
      while todo != {}
        invariant todo <= queried
        invariant table == map i | i in t0 && !(i in queried - todo && Garbage(t0[i], now, last)) :: t0[i]
      {
        var i :| i in todo;
        todo := todo - {i};
        if table[i].lastRun >= last - 1 {
          continue;
        }
        table := table - {i};
      }
      assert table == map i | i in t0 && !Garbage(t0[i], now, last) :: t0[i];
    }

    method DoRebuild() returns (ghost before: set<string>)
      modifies this`sent
      ensures state != Nodes.STARTED ==> sent == old(sent)
      ensures state == Nodes.STARTED ==> forall p, c :: Value(p, c) == Apply(cfg, old(Value(p, c)), Rebuild(before))
      ensures |sent| == |old(sent)| + |before|
    {
      before := {};
      if state != Nodes.STARTED {
        return;
      }
      ghost var v0 := View();
      var todo := table.Keys;
      while todo != {}
        invariant todo !! before && todo + before == table.Keys
        invariant forall i :: i in before ==> !Nameless(table[i].attrs)
        invariant View() == v0 + VisibleRows(table, before) && |sent| == |old(sent)| + |before|
      {
        var i :| i in todo;
        var ok := EmitUpdate(i, table[i].attrs);
        if !ok {
          break;
        }
        AnnounceOne(v0, table, before, i);
        todo := todo - {i};
        before := before + {i};
      }
      forall p, c { RebuildIs(cfg, State(table, lastSuccessfulRun, v0, p, c), before); }
    }

    /** One indicator of a poll; false where something raises. */
    method PollItem(item: Item, now: int, threshold: int) returns (ok: bool)
      modifies this`table, this`sent
      ensures forall p, c :: (Value(p, c), ok) == ProcessItem(cfg, old(Value(p, c)), now, threshold, item)
      ensures sent == old(sent) || exists v :: sent == old(sent) + [Updated(item.indicator, v)]
    {
      var i := item.indicator;
      var status := StatusOf(table, i, now, threshold);
      ok := true;
      if status == NX || !status.inFeed {
        var v := cfg.template;
        v := v["sources" := Names([cfg.sourceName])];
        v := v["last_seen" := Num(now)];
        v := v["first_seen" := Num(now)];
        v := v + item.attrs;
        var limit := CalcAgeOut(cfg, v);
        if limit.None? {
          return false;
        }
        table := table[i := Row(v, now, limit.value, None)];
        if limit.value >= now {
          ok := EmitUpdate(i, v);
        }
      } else if !status.aged && !status.marked {
        var v := table[i];
        var eq := CompareAttributes(cfg, v.attrs, item.attrs, item.missingFirst);
        if eq.None? || UpdateRaises(cfg, v.attrs, item.attrs) {
          return false;
        }
        var attrs := UpdateAttributes(cfg, v.attrs, item.attrs);
        var limit := CalcAgeOut(cfg, attrs);
        if limit.None? {
          return false;
        }
        table := table[i := Row(attrs, now, limit.value, None)];
        if !eq.value && limit.value >= now {
          ok := EmitUpdate(i, attrs);
        }
      } else if status.aged && !status.marked {
        table := table[i := table[i].(lastRun := now)];
      } else {
        table := table[i := table[i].(lastRun := now, withdrawn := Some(now))];
      }
    }

    /** One attempt of `_poll`. completes says that the feed's iterator does not raise after
        its items; leave is the item before which another greenlet moves the node
        out of STARTED, to next. The attempt then ends early and counts as successful. */
    method Poll(lastrun: int, now: int, items: seq<Item>, completes: bool, leave: Option<nat>, next: Nodes.FtState)
      requires next != Nodes.STARTED
      modifies this`state, this`table, this`sent, this`lastSuccessfulRun
      ensures old(state) != Nodes.STARTED ==>
        state == old(state) && sent == old(sent) && table == old(table) && lastSuccessfulRun == old(lastSuccessfulRun)
      ensures old(state) == Nodes.STARTED ==> (state == Nodes.STARTED || state == next) && forall p, c ::
        Value(now, now) == Apply(cfg, old(Value(p, c)),
          if leave.Some? && leave.value < |items| then Attempt(lastrun, now, items[..leave.value], true)
          else Attempt(lastrun, now, items, completes))
    {
      if state != Nodes.STARTED {
        return;
      }
      ghost var seen, done := items, completes;
      if leave.Some? && leave.value < |items| {
        seen, done := items[..leave.value], true;
      }
      var threshold := if lastSuccessfulRun.None? then now - cfg.interval * 1000 else lastSuccessfulRun.value;
      ghost var s0 := Value(now, now);
      ghost var result := ProcessItems(cfg, s0, now, threshold, seen);
      var performed := completes;
      for k := 0 to |items|
        invariant state == Nodes.STARTED && performed == completes
        invariant lastSuccessfulRun == s0.lastSuccess && k <= |seen|
        invariant ProcessItems(cfg, Value(now, now), now, threshold, seen[k..]) == result
      {
        if leave == Some(k) {
          state := next;
        }
        if state != Nodes.STARTED {
          performed := true;
          break;
        }
        assert seen[k..][1..] == seen[k + 1..];
        var ok := PollItem(items[k], now, threshold);
        if !ok {
          return;
        }
      }
      if performed {
        lastSuccessfulRun := Some(lastrun);
      }
    }
  }
}
