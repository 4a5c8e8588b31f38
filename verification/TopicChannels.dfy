/** The publishing and subscribing channel objects, run up to their next sleep,
    and the protocol actions each such stretch amounts to. */
module TopicChannels {
  import opened KeyNames
  import opened TopicProtocol

  /** What the channels see of Redis for one topic. */
  class RedisStore<M> {
    var queues: map<string, seq<M>>
    var counters: seq<nat>

    constructor ()
      ensures queues == map[] && counters == []
    {
      queues, counters := map[], [];
    }
  }

  /** The lists left by one complete call of `publish`. */
  function PublishedQueues<M>(name: nat -> string, queues: map<string, seq<M>>, counters: seq<nat>,
                              num: nat, msg: M): map<string, seq<M>> {
    var kept := if ChecksWindow(num) && LastOfList(num) then queues - Doomed(name, queues, Lagger(num, counters))
                else queues;
    Append(kept, name(num / LIST_SIZE), msg)
  }

  predicate MustWait(num: nat, counters: seq<nat>) {
    ChecksWindow(num) && num - Lagger(num, counters) > WINDOW
  }

  lemma CheckedMessages(num: nat)
    ensures ChecksWindow(num) <==> num % 128 == 127
  {
    NextInBatch(num);
  }

  /** The window in plain numbers. */
  predicate WindowIsFull(num: nat, counters: seq<nat>) {
    num % 128 == 127 && exists i :: 0 <= i < |counters| && num - counters[i] > 1024
  }

  /** A call waits exactly at every 128th message, while some subscriber has acknowledged
      less than all but the last 1024. */
  lemma WaitsExactly(num: nat, counters: seq<nat>)
    ensures MustWait(num, counters) <==> WindowIsFull(num, counters)
  {
    CheckedMessages(num);
    if counters != [] {
      var least := MinOf(counters);
      var i :| 0 <= i < |counters| && counters[i] == least;
      assert forall k :: 0 <= k < |counters| ==> num - counters[k] <= num - counters[i];
    }
  }

  class RedisPubChannel<M> {
    const topic: string
    const SR: RedisStore<M>
    var numPublish: nat

    constructor (topic: string, store: RedisStore<M>)
      ensures this.topic == topic && SR == store && numPublish == 0
    {
      this.topic, SR, numPublish := topic, store, 0;
    }

    function Name(): nat -> string {
      (list: nat) => QueueName(topic, list)
    }

    method ReadSlowest() returns (minsubc: nat)
      ensures minsubc == Lagger(numPublish, SR.counters)
    {
      minsubc := numPublish;
      if |SR.counters| != 0 {
        minsubc := MinOf(SR.counters);
      }
    }

    method Gc(lagger: nat)
      modifies SR`queues
      ensures SR.queues == old(SR.queues) - Doomed(Name(), old(SR.queues), lagger)
    {
      var minqname := QueueName(topic, lagger / LIST_SIZE);
      var queues := set q | q in SR.queues && Less(q, minqname);
      if |queues| != 0 {
        SR.queues := SR.queues - queues;
      }
      assert queues == Doomed(Name(), old(SR.queues), lagger);
    }

    /** One attempt of `publish`: false when it goes to sleep on the window,
        after which the attempt starts over with the same message. */
    method TryPublish(msg: M) returns (done: bool)
      modifies this`numPublish, SR`queues
      ensures done <==> !WindowIsFull(old(numPublish), SR.counters)
      ensures !done ==> numPublish == old(numPublish) && SR.queues == old(SR.queues)
      ensures done ==> numPublish == old(numPublish) + 1
      ensures done ==> SR.queues == PublishedQueues(Name(), old(SR.queues), SR.counters, old(numPublish), msg)
    {
      WaitsExactly(numPublish, SR.counters);
      var highBits, lowBits := numPublish / LIST_SIZE, numPublish % LIST_SIZE;
      if lowBits % BATCH == BATCH - 1 {
        var lagger := ReadSlowest();
        if numPublish - lagger > WINDOW {
          return false;
        }
        if lowBits == LIST_SIZE - 1 {
          Gc(lagger);
        }
      }
      var qname := QueueName(topic, highBits);
      SR.queues := SR.queues[qname := (if qname in SR.queues then SR.queues[qname] else []) + [msg]];
      numPublish := numPublish + 1;
      done := true;
    }
  }

  class RedisSubChannel<M> {
    const topic: string
    const SR: RedisStore<M>
    var subNumber: nat
    var counter: nat
    var delivered: seq<M>      // messages handed to the callback

    constructor (topic: string, store: RedisStore<M>)
      ensures this.topic == topic && SR == store && counter == 0 && delivered == []
    {
      this.topic, SR := topic, store;
      subNumber, counter, delivered := 0, 0, [];
    }

    function Name(): nat -> string {
      (list: nat) => QueueName(topic, list)
    }

    method Connect()
      modifies this`subNumber, SR`counters
      ensures SR.counters == old(SR.counters) + [0]
      ensures subNumber == |old(SR.counters)|
    {
      SR.counters := SR.counters + [0];
      subNumber := |SR.counters| - 1;
    }

    /** One turn of the draining loop; more says that it will not sleep before the next turn. */
    method DrainOnce() returns (more: bool)
      requires subNumber < |SR.counters|
      modifies this`counter, this`delivered, SR`counters
      ensures var batch := NextBatch(Name(), SR.queues, old(counter));
              && delivered == old(delivered) + batch
              && counter == old(counter) + |batch|
              && SR.counters == (if |batch| == 0 then old(SR.counters) else old(SR.counters)[subNumber := counter])
              && |batch| <= Min(128, 4096 - old(counter) % 4096)
              && (more <==> |batch| == Min(128, 4096 - old(counter) % 4096))
    {
      var base := counter % LIST_SIZE;
      var top := Min(base + BATCH - 1, LIST_SIZE - 1);
      var msgs := LRange(SR.queues, QueueName(topic, counter / LIST_SIZE), base, top);
      assert msgs == NextBatch(Name(), SR.queues, counter);
      for k := 0 to |msgs|
        invariant delivered == old(delivered) + msgs[..k]
        invariant counter == old(counter) && SR.counters == old(SR.counters)
      {
        assert msgs[..k + 1] == msgs[..k] + [msgs[k]];
        delivered := delivered + [msgs[k]];
      }
      assert msgs[..|msgs|] == msgs;
      counter := counter + |msgs|;
      if |msgs| > 0 {
        SR.counters := SR.counters[subNumber := counter];
      }
      more := |msgs| >= top - base + 1;
    }
  }

  /** The actions of a call of `publish` that is not interrupted; those that a
      call does not reach are not enabled and change nothing. */
  function PublishActions<M>(msg: M): seq<Action<M>> {
    [Publish(msg), ReadLagger, GcKeys, GcDelete, Push, Bump]
  }

  lemma RunFirst<M>(s: State<M>, a: Action<M>, rest: seq<Action<M>>)
    ensures Run(s, [a] + rest) == Run(Apply(s, a), rest)
  {
    assert ([a] + rest)[1..] == rest;
  }

  lemma RunOne<M>(s: State<M>, a: Action<M>)
    ensures Run(s, [a]) == Apply(s, a)
  {
    assert [a] == [a] + [];
    RunFirst(s, a, []);
  }

  lemma RunSix<M>(s: State<M>, a: Action<M>, b: Action<M>, c: Action<M>, d: Action<M>, e: Action<M>, f: Action<M>)
    ensures Run(s, [a, b, c, d, e, f]) == Apply(Apply(Apply(Apply(Apply(Apply(s, a), b), c), d), e), f)
  {
    assert [a, b, c, d, e, f] == [a] + [b, c, d, e, f];
    RunFirst(s, a, [b, c, d, e, f]);
    var s1 := Apply(s, a);
    assert [b, c, d, e, f] == [b] + [c, d, e, f];
    RunFirst(s1, b, [c, d, e, f]);
    var s2 := Apply(s1, b);
    assert [c, d, e, f] == [c] + [d, e, f];
    RunFirst(s2, c, [d, e, f]);
    var s3 := Apply(s2, c);
    assert [d, e, f] == [d] + [e, f];
    RunFirst(s3, d, [e, f]);
    var s4 := Apply(s3, d);
    assert [e, f] == [e] + [f];
    RunFirst(s4, e, [f]);
    RunOne(Apply(s4, e), f);
  }

  lemma CollectBeforePush<M>(s: State<M>, msg: M)
    requires s.pub.Idle? && !MustWait(s.num, s.counters)
    ensures Apply(Apply(Apply(Apply(s, Publish(msg)), ReadLagger), GcKeys), GcDelete) ==
            s.(pub := Pushing(msg),
               queues := if ChecksWindow(s.num) && LastOfList(s.num)
                         then s.queues - Doomed(s.name, s.queues, Lagger(s.num, s.counters)) else s.queues)
  {
  }

  /** TryPublish without interruption is a run of the protocol: it leaves exactly
      the lists, the log and the count that the six actions leave. */
  lemma PublishIsRun<M>(s: State<M>, msg: M)
    requires s.pub.Idle? && !MustWait(s.num, s.counters)
    ensures Run(s, PublishActions(msg)) ==
            s.(num := s.num + 1, published := s.published + [msg],
               queues := PublishedQueues(s.name, s.queues, s.counters, s.num, msg))
  {
    RunSix(s, Publish(msg), ReadLagger, GcKeys, GcDelete, Push, Bump);
    CollectBeforePush(s, msg);
  }

  /** The rest of a turn with k messages of the batch still to hand over. */
  ghost predicate RestOfTurn<M>(i: nat, k: nat, actions: seq<Action<M>>) {
    && |actions| == k + 1 && actions[k] == Store(i)
    && forall j :: 0 <= j < k ==> actions[j] == Deliver(i)
  }

  function AfterTurn<M>(s: State<M>, i: nat, counter: nat, delivered: seq<M>): State<M>
    requires i < |s.subs| && i < |s.counters|
  {
    s.(counters := s.counters[i := counter], subs := s.subs[i := Subscriber(counter, Ready, delivered)])
  }

  lemma DeliverOne<M>(s: State<M>, i: nat, batch: seq<M>, next: nat)
    requires i < |s.subs| && i < |s.counters| && next < |batch|
    requires s.subs[i].phase == Delivering(batch, next)
    ensures var u := s.subs[i];
            var more := u.delivered + [batch[next]];
            Apply(s, Deliver(i)) == s.(subs := s.subs[i :=
              if next + 1 < |batch| then Subscriber(u.counter, Delivering(batch, next + 1), more)
              else Subscriber(u.counter + |batch|, Storing, more)])
  {
  }

  lemma StoreAfter<M>(s: State<M>, i: nat, u: Subscriber<M>)
    requires i < |s.subs| && i < |s.counters| && u.phase.Storing?
    ensures Apply(s.(subs := s.subs[i := u]), Store(i)) == AfterTurn(s, i, u.counter, u.delivered)
  {
    assert s.subs[i := u][i := u.(phase := Ready)] == s.subs[i := u.(phase := Ready)];
  }

  lemma RunLast<M>(s: State<M>, actions: seq<Action<M>>)
    requires |actions| == 1
    ensures Run(s, actions) == Apply(s, actions[0])
  {
    assert actions[1..] == [];
  }

  lemma RestAfterOne<M>(i: nat, k: nat, actions: seq<Action<M>>)
    requires k > 0 && RestOfTurn(i, k, actions)
    ensures RestOfTurn(i, k - 1, actions[1..])
  {
  }

  lemma {:induction false} RestIsRun<M>(s: State<M>, i: nat, batch: seq<M>, next: nat, actions: seq<Action<M>>)
    requires i < |s.subs| && i < |s.counters| && next < |batch|
    requires s.subs[i].phase == Delivering(batch, next) && RestOfTurn(i, |batch| - next, actions)
    ensures Run(s, actions) == AfterTurn(s, i, s.subs[i].counter + |batch|, s.subs[i].delivered + batch[next..])
    decreases |batch| - next
  {
    var u, t := s.subs[i], Apply(s, Deliver(i));
    DeliverOne(s, i, batch, next);
    RestAfterOne(i, |batch| - next, actions);
    assert u.delivered + [batch[next]] + batch[next + 1..] == u.delivered + batch[next..];
    if next + 1 < |batch| {
      RestIsRun(t, i, batch, next + 1, actions[1..]);
      var last := Subscriber(u.counter + |batch|, Ready, u.delivered + batch[next..]);
      assert t.subs[i := last] == s.subs[i := last];
    } else {
      assert batch[next..] == [batch[next]];
      RunLast(t, actions[1..]);
      StoreAfter(s, i, t.subs[i]);
    }
  }

  lemma AfterRead<M>(s: State<M>, i: nat, batch: seq<M>, actions: seq<Action<M>>)
    requires i < |s.subs| && i < |s.counters| && |batch| > 0 && RestOfTurn(i, |batch|, actions)
    ensures var u := s.subs[i];
            Run(s.(subs := s.subs[i := u.(phase := Delivering(batch, 0))]), actions) ==
            AfterTurn(s, i, u.counter + |batch|, u.delivered + batch)
  {
    var u := s.subs[i];
    var t := s.(subs := s.subs[i := u.(phase := Delivering(batch, 0))]);
    RestIsRun(t, i, batch, 0, actions);
    assert batch[0..] == batch;
    var last := Subscriber(u.counter + |batch|, Ready, u.delivered + batch);
    assert t.subs[i := last] == s.subs[i := last];
  }

  lemma ReadFirst<M>(s: State<M>, i: nat)
    requires i < |s.subs| && i < |s.counters| && s.subs[i].phase.Ready?
    ensures var u := s.subs[i];
            var batch := NextBatch(s.name, s.queues, u.counter);
            Apply(s, Read(i)) == if |batch| == 0 then s else s.(subs := s.subs[i := u.(phase := Delivering(batch, 0))])
  {
  }

  lemma RunTail<M>(s: State<M>, actions: seq<Action<M>>)
    requires |actions| > 0
    ensures Run(s, actions) == Run(Apply(s, actions[0]), actions[1..])
  {
  }

  /** DrainOnce without interruption is a run of the protocol: a read, one
      delivery for each message of the batch, and the write of the counter. */
  lemma DrainIsRun<M>(s: State<M>, i: nat, actions: seq<Action<M>>)
    requires i < |s.subs| && i < |s.counters| && s.subs[i].phase.Ready?
    requires var k := |NextBatch(s.name, s.queues, s.subs[i].counter)|;
             |actions| == k + 2 && actions[0] == Read(i) && RestOfTurn(i, k, actions[1..])
    ensures var u := s.subs[i];
            var batch := NextBatch(s.name, s.queues, u.counter);
            Run(s, actions) == if |batch| == 0 then s else AfterTurn(s, i, u.counter + |batch|, u.delivered + batch)
  {
    var batch := NextBatch(s.name, s.queues, s.subs[i].counter);
    RunTail(s, actions);
    ReadFirst(s, i);
    if |batch| == 0 {
      RunLast(s, actions[1..]);
    } else {
      AfterRead(s, i, batch, actions[1..]);
    }
  }
}
