/** The publisher's window in plain numbers: when a call waits, where a message goes, and
    that the bound on the backlog is reached. */
module TopicWindow {
  import opened KeyNames
  import opened TopicProtocol
  import opened TopicTheorems
  import opened TopicChannels

  /** A call of `publish` that does not wait puts its message at place num % 4096 of the
      list numbered num / 4096, keeps what that list held, and counts it. */
  lemma PublishPlaces<M>(s: State<M>, msg: M)
    requires Delivery(s) && s.pub.Idle? && !MustWait(s.num, s.counters)
    ensures var t := Run(s, PublishActions(msg));
            var q := s.name(s.num / 4096);
            && q in t.queues && |t.queues[q]| == s.num % 4096 + 1 && t.queues[q][s.num % 4096] == msg
            && t.num == s.num + 1 && t.published == s.published + [msg]
            && t.pub == Idle && t.counters == s.counters && t.subs == s.subs
  {
    PublishIsRun(s, msg);
    RunKeepsDelivery(s, PublishActions(msg));
    var t := Run(s, PublishActions(msg));
    ListContent(t.name, t.published, t.queues, s.num / LIST_SIZE);
  }

  ghost predicate NoWait(num: nat, counters: seq<nat>, k: nat) {
    forall j: nat :: num <= j < num + k ==> !MustWait(j, counters)
  }

  lemma {:induction false} PublishMany<M>(s: State<M>, msg: M, k: nat) returns (actions: seq<Action<M>>)
    requires s.pub.Idle? && NoWait(s.num, s.counters, k)
    ensures var t := Run(s, actions);
            && t.pub.Idle? && t.num == s.num + k && t.counters == s.counters && |t.subs| == |s.subs|
    decreases k
  {
    if k == 0 {
      actions := [];
    } else {
      var t := Run(s, PublishActions(msg));
      PublishIsRun(s, msg);
      var rest := PublishMany(t, msg, k - 1);
      RunConcat(s, PublishActions(msg), rest);
      actions := PublishActions(msg) + rest;
    }
  }

  lemma {:induction false} RunConcat<M>(s: State<M>, a: seq<Action<M>>, b: seq<Action<M>>)
    ensures Run(s, a + b) == Run(Run(s, a), b)
    decreases |a|
  {
    if a == [] {
      assert a + b == b;
    } else {
      assert (a + b)[1..] == a[1..] + b;
      RunConcat(Apply(s, a[0]), a[1..], b);
    }
  }

  lemma OneCounter(num: nat, c: nat, k: nat)
    requires forall j: nat :: num <= j < num + k && j % 128 == 127 ==> j <= c + 1024
    ensures NoWait(num, [c], k)
  {
    forall j: nat | num <= j < num + k ensures !MustWait(j, [c]) {
      WaitsExactly(j, [c]);
    }
  }

  /** With one subscriber that reads 127 messages and stops, the publisher gets 1152
      messages ahead of it, and waits there. */
  lemma BacklogIsReached<M>(topic: string, msg: M) returns (actions: seq<Action<M>>)
    ensures var t := Run(Init<M>(topic, 1), actions);
            && |t.counters| == 1 && t.num - t.counters[0] == 1152
            && t.pub.Idle? && MustWait(t.num, t.counters)
  {
    var s0 := Init<M>(topic, 1);
    InitInv<M>(topic, 1);
    assert s0.counters == [0];
    OneCounter(0, 0, 127);
    var first := PublishMany(s0, msg, 127);
    RunKeepsInv(s0, first);
    var s1 := Run(s0, first);
    var drain := SubscribersDrain(s1);
    var s2 := Run(s1, drain);
    assert s2.counters == [127];
    OneCounter(127, 127, 1152);
    var second := PublishMany(s2, msg, 1152);
    RunConcat(s0, first, drain);
    RunConcat(s0, first + drain, second);
    actions := first + drain + second;
    WaitsExactly(1279, [127]);
  }

  /** The size of a batch: 128 messages, fewer where the list or the log ends. */
  lemma BatchSize<M>(name: nat -> string, p: seq<M>, queues: map<string, seq<M>>, c: nat)
    requires Injective(name) && Chunked(name, p, queues) && c <= |p|
    requires c < |p| ==> name(c / LIST_SIZE) in queues
    ensures |NextBatch(name, queues, c)| == Min(128, Min(4096 - c % 4096, |p| - c))
  {
    BatchIsNextStretch(name, p, queues, c);
    if c < |p| {
      ListContent(name, p, queues, c / LIST_SIZE);
    }
  }
}
