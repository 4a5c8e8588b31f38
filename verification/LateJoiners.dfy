/** A subscriber that registers after messages have been published: exactly when
    it still receives the topic from the first message on. */
module LateJoiners {
  import opened KeyNames
  import opened TopicProtocol
  import opened TopicTheorems

  /** `connect`: a counter of 0 is appended, and draining starts from the first message. */
  function Join<M>(s: State<M>): State<M> {
    s.(counters := s.counters + [0], subs := s.subs + [Subscriber(0, Ready, [])])
  }

  /** List 0 is still being filled, or is still there with no collection under way. */
  predicate InTime<M>(s: State<M>) {
    s.num < LIST_SIZE || (s.name(0) in s.queues && !s.pub.Collecting? && !s.pub.Deleting?)
  }

  /** Subscriber i waits for a list that is gone. */
  ghost predicate Starving<M>(s: State<M>, i: nat) {
    && Injective(s.name) && s.num >= LIST_SIZE && s.name(0) !in s.queues
    && i < |s.subs| == |s.counters|
    && s.subs[i] == Subscriber(0, Ready, []) && s.counters[i] == 0
  }

  lemma {:induction false} StarvingForEver<M>(s: State<M>, i: nat, actions: seq<Action<M>>)
    requires Starving(s, i)
    ensures Starving(Run(s, actions), i)
    decreases |actions|
  {
    if actions != [] {
      assert Starving(Apply(s, actions[0]), i);
      StarvingForEver(Apply(s, actions[0]), i, actions[1..]);
    }
  }

  // ---------- when list 0 goes ----------

  /** The first list goes at the end of the second at the latest. */
  ghost predicate FirstGoes<M>(s: State<M>) {
    && Injective(s.name) && Less(s.name(0), s.name(1))
    && (s.num / LIST_SIZE >= 2 || (s.num / LIST_SIZE == 1 && Collected(s)) ==> s.name(0) !in s.queues)
  }

  lemma ApplyKeepsFirstGoes<M>(s: State<M>, a: Action<M>)
    requires PubInv(s) && FirstGoes(s)
    ensures FirstGoes(Apply(s, a))
  {
    if a.Bump? && s.pub.Pushed? && s.num / LIST_SIZE < (s.num + 1) / LIST_SIZE {
      assert LastOfList(s.num);
    }
  }

  lemma {:induction false} RunKeepsFirstGoes<M>(s: State<M>, actions: seq<Action<M>>)
    requires Delivery(s) && FirstGoes(s)
    ensures FirstGoes(Run(s, actions))
    decreases |actions|
  {
    if actions != [] {
      ApplyKeepsDelivery(s, actions[0]);
      ApplyKeepsFirstGoes(s, actions[0]);
      RunKeepsFirstGoes(Apply(s, actions[0]), actions[1..]);
    }
  }

  lemma FirstNames<M>(topic: string, n: nat)
    ensures Less(Init<M>(topic, n).name(0), Init<M>(topic, n).name(1))
  {
    WidthIs(0, MIN_WIDTH);
    WidthIs(1, MIN_WIDTH);
    SameWidthOrder(topic, 0, 1);
  }

  lemma Reachable<M>(topic: string, n: nat, before: seq<Action<M>>)
    ensures var s := Run(Init<M>(topic, n), before);
            Delivery(s) && FirstGoes(s) && |s.subs| == |s.counters| == n
  {
    InitInv<M>(topic, n);
    RunKeepsInv(Init<M>(topic, n), before);
    RunKeepsShape(Init<M>(topic, n), before);
    FirstNames<M>(topic, n);
    RunKeepsFirstGoes(Init<M>(topic, n), before);
  }

  // ---------- in time ----------

  lemma JoinKeepsDelivery<M>(s: State<M>)
    requires Delivery(s) && FirstGoes(s) && InTime(s)
    ensures Delivery(Join(s))
  {
    var t := Join(s);
    forall list: nat | Needed(t, list) ensures t.name(list) in t.queues {
      assert list == 0 || list == s.num / LIST_SIZE;
      assert list == s.num / LIST_SIZE ==> Needed(s, list);
    }
  }

  lemma InTimeNeverStarves<M>(s: State<M>, i: nat)
    requires Delivery(s)
    ensures !Starving(s, i)
  {
    if Starving(s, i) {
      assert s.counters[i] / LIST_SIZE <= 0;
      assert Needed(s, 0);
      assert false;
    }
  }

  // ---------- too late ----------

  /** A collection under way takes the first list with it. */
  lemma CollectionTakesFirst<M>(s: State<M>) returns (after: seq<Action<M>>)
    requires Delivery(s) && FirstGoes(s) && s.num >= LIST_SIZE && (s.pub.Collecting? || s.pub.Deleting?)
    ensures var t := Run(Join(s), after);
            t == Join(s).(pub := t.pub, queues := t.queues) && s.name(0) !in t.queues
  {
    var j := Join(s);
    if s.pub.Collecting? {
      var d := Apply(j, GcKeys);
      after := [GcKeys, GcDelete];
      assert after[1..] == [GcDelete] && after[1..][1..] == [];
      assert Run(j, after) == Apply(d, GcDelete);
      assert d.pub.doomed == Doomed(s.name, s.queues, s.pub.lagger);
    } else {
      after := [GcDelete];
      assert after[1..] == [];
      assert Run(j, after) == Apply(j, GcDelete);
    }
  }

  /** Some run from here leaves the joining subscriber waiting for ever. */
  ghost predicate CanStarve<M(!new)>(s: State<M>) {
    exists after :: Starving(Run(Join(s), after), |s.subs|)
  }

  lemma TooLateStarves<M(!new)>(s: State<M>)
    requires Delivery(s) && FirstGoes(s) && !InTime(s)
    ensures CanStarve(s)
  {
    if s.name(0) !in s.queues {
      assert Starving(Run(Join(s), []), |s.subs|);
    } else {
      var after := CollectionTakesFirst(s);
      assert Starving(Run(Join(s), after), |s.subs|);
    }
  }

  /** A subscriber registering at some moment is safe from waiting for ever, in
      every run from there, exactly when it is in time. */
  lemma LateJoinExactly<M(!new)>(topic: string, n: nat, before: seq<Action<M>>)
    ensures var s := Run(Init<M>(topic, n), before);
            InTime(s) <==> !CanStarve(s)
  {
    Reachable(topic, n, before);
    var s := Run(Init<M>(topic, n), before);
    if InTime(s) {
      JoinKeepsDelivery(s);
      forall after ensures !Starving(Run(Join(s), after), |s.subs|) {
        RunKeepsDelivery(Join(s), after);
        InTimeNeverStarves(Run(Join(s), after), |s.subs|);
      }
    } else {
      TooLateStarves(s);
    }
  }

  /** In time: it is handed the log from the first message on, in order, and nothing
      it has still to read is ever deleted. */
  lemma InTimeJoinerReceives<M>(topic: string, n: nat, before: seq<Action<M>>, after: seq<Action<M>>)
    requires InTime(Run(Init<M>(topic, n), before))
    ensures var s := Run(Join(Run(Init<M>(topic, n), before)), after);
            && n < |s.subs| && Delivery(s)
            && |s.subs[n].delivered| <= |s.published|
            && s.subs[n].delivered == s.published[..|s.subs[n].delivered|]
  {
    Reachable(topic, n, before);
    var j := Join(Run(Init<M>(topic, n), before));
    JoinKeepsDelivery(Run(Init<M>(topic, n), before));
    RunKeepsDelivery(j, after);
    RunKeepsShape(j, after);
    var s := Run(j, after);
    assert SubInv(s.published, s.counters[n], s.subs[n]);
  }

  /** Too late, with list 0 already gone: it is never handed a message, and keeps the
      slowest published counter at zero for ever. */
  lemma LateJoinerStarves<M>(topic: string, n: nat, before: seq<Action<M>>, after: seq<Action<M>>)
    requires Run(Init<M>(topic, n), before).num >= LIST_SIZE
    requires QueueName(topic, 0) !in Run(Init<M>(topic, n), before).queues
    ensures var s := Run(Join(Run(Init<M>(topic, n), before)), after);
            && n < |s.subs| == |s.counters|
            && s.subs[n].delivered == [] && s.counters[n] == 0
            && Lagger(s.num, s.counters) == 0
  {
    Reachable(topic, n, before);
    RunKeepsShape(Init<M>(topic, n), before);
    StarvingForEver(Join(Run(Init<M>(topic, n), before)), n, after);
  }
}
