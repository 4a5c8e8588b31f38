/** What every interleaving of a topic's publisher and its pre-registered
    subscribers keeps: delivery, collection, window and progress. */
module TopicTheorems {
  import opened KeyNames
  import opened TopicProtocol

  /** The messages that calls of `publish` have taken, in call order. */
  function Accepted<M>(s: State<M>, actions: seq<Action<M>>): seq<M>
    decreases |actions|
  {
    if actions == [] then [] else
    Taken(s, actions[0]) + Accepted(Apply(s, actions[0]), actions[1..])
  }

  /** The message of a call in progress that is not yet in the log. */
  function InHand<M>(pub: Publisher<M>): seq<M> {
    if pub.Idle? || pub.Pushed? then [] else [pub.msg]
  }

  function Taken<M>(s: State<M>, a: Action<M>): seq<M> {
    if a.Publish? && s.pub.Idle? then [a.msg] else []
  }

  lemma StepAccepts<M>(s: State<M>, a: Action<M>)
    ensures var t := Apply(s, a);
            t.published + InHand(t.pub) == s.published + InHand(s.pub) + Taken(s, a)
  {
    if a.Read? || a.Deliver? || a.Store? {
      assert Apply(s, a).published == s.published && Apply(s, a).pub == s.pub;
    }
  }

  lemma Associative<M>(a: seq<M>, b: seq<M>, c: seq<M>)
    ensures a + (b + c) == a + b + c
  {
  }

  lemma {:induction false} LogIsAccepted<M>(s: State<M>, actions: seq<Action<M>>)
    ensures var t := Run(s, actions);
            t.published + InHand(t.pub) == s.published + InHand(s.pub) + Accepted(s, actions)
    decreases |actions|
  {
    if actions == [] {
      assert s.published + InHand(s.pub) + [] == s.published + InHand(s.pub);
    } else {
      var t, a := Apply(s, actions[0]), actions[0];
      StepAccepts(s, a);
      LogIsAccepted(t, actions[1..]);
      Associative(s.published + InHand(s.pub), Taken(s, a), Accepted(t, actions[1..]));
    }
  }

  lemma {:induction false} RunKeepsShape<M>(s: State<M>, actions: seq<Action<M>>)
    ensures |Run(s, actions).subs| == |s.subs| && Run(s, actions).name == s.name
    decreases |actions|
  {
    if actions != [] {
      RunKeepsShape(Apply(s, actions[0]), actions[1..]);
    }
  }

  /** Exactly once, in order: at every moment a subscriber has been handed the
      first messages given to `publish`, at least as many as it has
      acknowledged and at most as many as have been appended. */
  lemma ExactlyOnceInOrder<M>(topic: string, n: nat, actions: seq<Action<M>>, i: nat)
    requires i < n
    ensures var s := Run(Init<M>(topic, n), actions);
            && |s.subs| == |s.counters| == n
            && s.published + InHand(s.pub) == Accepted(Init<M>(topic, n), actions)
            && s.counters[i] <= s.subs[i].counter <= |s.subs[i].delivered| <= |s.published|
            && s.subs[i].delivered == s.published[..|s.subs[i].delivered|]
            && (!s.subs[i].phase.Delivering? ==> |s.subs[i].delivered| == s.subs[i].counter)
  {
    InitInv<M>(topic, n);
    RunKeepsInv(Init<M>(topic, n), actions);
    RunKeepsShape(Init<M>(topic, n), actions);
    LogIsAccepted(Init<M>(topic, n), actions);
    var s := Run(Init<M>(topic, n), actions);
    assert SubInv(s.published, s.counters[i], s.subs[i]);
  }

  /** The topic, lists and batches and all, is to each subscriber a log read in
      order: an action appends one message, or hands the subscriber the next one,
      or changes neither. The barrier's channels are such logs. */
  lemma TopicIsFifo<M>(s: State<M>, a: Action<M>, i: nat)
    requires Inv(s) && i < |s.subs|
    ensures var t := Apply(s, a);
            && |t.subs| == |s.subs|
            && t.published == s.published + (if a == Push && s.pub.Pushing? then [s.pub.msg] else [])
            && var (had, has) := (s.subs[i].delivered, t.subs[i].delivered);
               has == had || (a == Deliver(i) && |had| < |s.published| && has == had + [s.published[|had|]])
  {
    if a == Deliver(i) && s.subs[i].phase.Delivering? {
      NextInOrder(s.published, s.counters[i], s.subs[i]);
    }
  }

  lemma NextInOrder<M>(published: seq<M>, stored: nat, u: Subscriber<M>)
    requires SubInv(published, stored, u) && u.phase.Delivering?
    ensures |u.delivered| < |published| && u.phase.batch[u.phase.next] == published[|u.delivered|]
  {
  }

  /** No collection ever deletes a list that some subscriber has not read to its end. */
  lemma NeverDeletesUnread<M>(topic: string, n: nat, actions: seq<Action<M>>, i: nat, q: string)
    requires i < n
    requires var s := Run(Init<M>(topic, n), actions);
             q in s.queues && q !in Apply(s, GcDelete).queues
    ensures var s := Run(Init<M>(topic, n), actions);
            |s.subs| == n && exists list: nat ::
              q == QueueName(topic, list) && list < s.subs[i].counter / LIST_SIZE
  {
    InitInv<M>(topic, n);
    RunKeepsInv(Init<M>(topic, n), actions);
    RunKeepsShape(Init<M>(topic, n), actions);
    CollectionIsSafe(Run(Init<M>(topic, n), actions), q, i);
  }

  /** The publisher is never more than 1152 messages ahead of the slowest
      acknowledged position, and at most 1025 just after a checked message. */
  lemma BacklogBound<M>(topic: string, n: nat, actions: seq<Action<M>>, i: nat)
    requires i < n
    ensures var s := Run(Init<M>(topic, n), actions);
            |s.counters| == n && s.num - s.counters[i] <= WINDOW + 1 + s.num % BATCH <= 1152
  {
    InitInv<M>(topic, n);
    RunKeepsInv(Init<M>(topic, n), actions);
    RunKeepsShape(Init<M>(topic, n), actions);
  }

  // ---------- progress ----------

  /** Steps a subscriber has left before everything in the log is delivered and acknowledged. */
  function Work<M>(total: nat, stored: nat, u: Subscriber<M>): int {
    total - |u.delivered| + 3 * (total - stored) +
    match u.phase case Ready => 3 case Delivering(_, _) => 2 case Storing => 1
  }

  function TotalWork<M>(total: nat, counters: seq<nat>, subs: seq<Subscriber<M>>): int
    requires |counters| == |subs|
  {
    if subs == [] then 0
    else Work(total, counters[0], subs[0]) + TotalWork(total, counters[1..], subs[1..])
  }

  lemma {:induction false} UpdateWork<M>(total: nat, counters: seq<nat>, subs: seq<Subscriber<M>>,
                                         i: nat, c: nat, u: Subscriber<M>)
    requires |counters| == |subs| && i < |subs|
    ensures TotalWork(total, counters[i := c], subs[i := u]) ==
            TotalWork(total, counters, subs) - Work(total, counters[i], subs[i]) + Work(total, c, u)
  {
    if i == 0 {
      assert counters[0 := c][1..] == counters[1..] && subs[0 := u][1..] == subs[1..];
    } else {
      UpdateWork(total, counters[1..], subs[1..], i - 1, c, u);
      assert counters[i := c][1..] == counters[1..][i - 1 := c];
      assert subs[i := u][1..] == subs[1..][i - 1 := u];
    }
  }

  lemma {:induction false} WorkIsNat<M>(published: seq<M>, counters: seq<nat>, subs: seq<Subscriber<M>>)
    requires |counters| == |subs|
    requires forall i :: 0 <= i < |subs| ==> SubInv(published, counters[i], subs[i])
    ensures TotalWork(|published|, counters, subs) >= 0
  {
    if subs != [] {
      assert SubInv(published, counters[0], subs[0]);
      WorkIsNat(published, counters[1..], subs[1..]);
    }
  }

  /** A subscriber that has acknowledged the whole log and waits for more. */
  predicate CaughtUp<M>(s: State<M>, i: nat)
    requires i < |s.subs|
  {
    s.subs[i].phase.Ready? && s.subs[i].counter == |s.published|
  }

  /** Every other subscriber has a step to take, and the step leaves less work. */
  lemma SubscriberProgress<M>(s: State<M>, i: nat)
    requires Delivery(s) && i < |s.subs| && !CaughtUp(s, i)
    ensures var t := SubAction(s, i);
            && Delivery(t) && t.published == s.published && t.num == s.num && t.pub == s.pub
            && |t.subs| == |s.subs|
            && 0 <= TotalWork(|t.published|, t.counters, t.subs) < TotalWork(|s.published|, s.counters, s.subs)
  {
    var t := SubAction(s, i);
    SubActionKeepsDelivery(s, i);
    SubActionKeepsSubs(s, i);
    WorkIsNat(t.published, t.counters, t.subs);
    if s.subs[i].phase.Ready? {
      HasNextBatch(s, i);
    }
    StepWork(s, i);
    UpdateWork(|s.published|, s.counters, s.subs, i, t.counters[i], t.subs[i]);
  }

  lemma HasNextBatch<M>(s: State<M>, i: nat)
    requires Delivery(s) && i < |s.subs| && !CaughtUp(s, i) && s.subs[i].phase.Ready?
    ensures |NextBatch(s.name, s.queues, s.subs[i].counter)| > 0
  {
    var c := s.subs[i].counter;
    assert SubInv(s.published, s.counters[i], s.subs[i]);
    NextListIsLive(s, i);
    BatchIsNextStretch(s.name, s.published, s.queues, c);
  }

  lemma StepWork<M>(s: State<M>, i: nat)
    requires i < |s.subs| && i < |s.counters| && SubInv(s.published, s.counters[i], s.subs[i])
    requires s.subs[i].phase.Ready? ==> |NextBatch(s.name, s.queues, s.subs[i].counter)| > 0
    ensures var t := SubAction(s, i);
            && |t.subs| == |s.subs| && |t.counters| == |s.counters|
            && t.subs == s.subs[i := t.subs[i]] && t.counters == s.counters[i := t.counters[i]]
            && Work(|s.published|, t.counters[i], t.subs[i]) < Work(|s.published|, s.counters[i], s.subs[i])
  {
  }

  predicate Blocked<M>(s: State<M>) {
    s.pub.Checking? && s.num - Lagger(s.num, s.counters) > WINDOW
  }

  /** No deadlock: a blocked publisher always leaves some subscriber that can move. */
  lemma BlockedLeavesWork<M>(s: State<M>)
    requires Delivery(s) && Blocked(s)
    ensures exists i: nat :: i < |s.subs| && !CaughtUp(s, i)
  {
    var i :| 0 <= i < |s.counters| && s.counters[i] == MinOf(s.counters);
    assert SubInv(s.published, s.counters[i], s.subs[i]);
    assert !CaughtUp(s, i);
  }

  function SubActionName<M>(s: State<M>, i: nat): Action<M>
    requires i < |s.subs|
  {
    match s.subs[i].phase case Ready => Read(i) case Delivering(_, _) => Deliver(i) case Storing => Store(i)
  }

  ghost predicate BySubscribers<M>(actions: seq<Action<M>>) {
    forall a :: a in actions ==> a.Read? || a.Deliver? || a.Store?
  }

  lemma DrainedIsNotBlocked<M>(s: State<M>)
    requires PubInv(s)
    requires forall i :: 0 <= i < |s.counters| ==> s.counters[i] == |s.published|
    ensures !Blocked(s)
  {
  }

  ghost predicate SamePublisher<M>(s: State<M>, t: State<M>) {
    t.pub == s.pub && t.published == s.published && t.num == s.num && |t.subs| == |s.subs|
  }

  ghost predicate Drained<M>(s: State<M>) {
    && |s.counters| == |s.subs|
    && forall i :: 0 <= i < |s.subs| ==> s.subs[i].delivered == s.published && s.counters[i] == |s.published|
  }

  lemma CaughtUpIsDrained<M>(s: State<M>)
    requires SubsInv(s) && forall i: nat :: i < |s.subs| ==> CaughtUp(s, i)
    ensures Drained(s)
  {
    forall i | 0 <= i < |s.subs|
      ensures s.subs[i].delivered == s.published && s.counters[i] == |s.published|
    {
      assert CaughtUp(s, i);
      assert SubInv(s.published, s.counters[i], s.subs[i]);
    }
  }

  lemma StepIsSubAction<M>(s: State<M>, i: nat, rest: seq<Action<M>>)
    requires i < |s.subs| && i < |s.counters|
    ensures Run(s, [SubActionName(s, i)] + rest) == Run(SubAction(s, i), rest)
  {
    assert ([SubActionName(s, i)] + rest)[1..] == rest;
  }

  /** From every reachable state the subscribers alone can take delivery of the
      whole log, in no more steps than the work left, and so release the publisher. */
  lemma SubscribersDrain<M>(s: State<M>) returns (actions: seq<Action<M>>)
    requires Delivery(s)
    ensures BySubscribers(actions)
    ensures |actions| <= TotalWork(|s.published|, s.counters, s.subs)
    ensures var t := Run(s, actions);
            Delivery(t) && SamePublisher(s, t) && Drained(t) && !Blocked(t)
    decreases TotalWork(|s.published|, s.counters, s.subs)
  {
    if i: nat :| i < |s.subs| && !CaughtUp(s, i) {
      SubscriberProgress(s, i);
      var rest := SubscribersDrain(SubAction(s, i));
      StepIsSubAction(s, i, rest);
      actions := [SubActionName(s, i)] + rest;
    } else {
      WorkIsNat(s.published, s.counters, s.subs);
      CaughtUpIsDrained(s);
      DrainedIsNotBlocked(s);
      actions := [];
    }
  }

  /** Nothing is lost: when no subscriber can move, each has been handed the whole log. */
  lemma QuietMeansDelivered<M>(topic: string, n: nat, actions: seq<Action<M>>)
    requires var s := Run(Init<M>(topic, n), actions);
             forall i :: 0 <= i < |s.subs| && i < |s.counters| ==> SubAction(s, i) == s
    ensures var s := Run(Init<M>(topic, n), actions);
            && |s.subs| == n
            && forall i :: 0 <= i < n ==> s.subs[i].delivered == s.published
  {
    InitInv<M>(topic, n);
    RunKeepsInv(Init<M>(topic, n), actions);
    RunKeepsShape(Init<M>(topic, n), actions);
    var s := Run(Init<M>(topic, n), actions);
    forall i | 0 <= i < n ensures s.subs[i].delivered == s.published {
      if !CaughtUp(s, i) {
        SubscriberProgress(s, i);
        assert false;
      }
      assert SubInv(s.published, s.counters[i], s.subs[i]);
    }
  }
}
