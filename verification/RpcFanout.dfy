/** Collecting the replies to requests broadcast on the management bus. */
module RpcFanout {
  import opened Options
  import opened Sets

  /** Body of a reply; the sender may leave any field out. */
  datatype Reply<V> = Reply(source: Option<string>, id: Option<string>, result: Option<V>)
  datatype Pending<V> = Pending(answers: map<string, V>, errors: nat, numResults: nat)
  datatype Result<V> = Result(answers: map<string, V>, errors: nat)

  /** A request is sent with a fresh identifier; replies come in any order,
      late, repeated or for identifiers never sent. */
  datatype Event<V> = Send(id: string, numResults: nat) | Receive(reply: Reply<V>)

  /** active_rpcs, and every call of `event.set` so far. */
  datatype State<V> = State(active: map<string, Pending<V>>, fired: seq<(string, Result<V>)>)

  function Counted<V>(answers: map<string, V>, errors: nat): nat {
    |answers| + errors
  }

  function WithReply<V>(p: Pending<V>, source: string, result: Option<V>): Pending<V> {
    match result
    case None => p.(errors := p.errors + 1)
    case Some(v) => p.(answers := p.answers[source := v])
  }

  function Step<V>(s: State<V>, e: Event<V>): State<V> {
    match e
    case Send(id, n) =>
      if n == 0 then s.(fired := s.fired + [(id, Result(map[], 0))])
      else s.(active := s.active[id := Pending(map[], 0, n)])
    case Receive(Reply(source, id, result)) =>
      if source.None? || id.None? || id.value !in s.active then s else
      var p := WithReply(s.active[id.value], source.value, result);
      if Counted(p.answers, p.errors) >= p.numResults
      then State(s.active - {id.value}, s.fired + [(id.value, Result(p.answers, p.errors))])
      else s.(active := s.active[id.value := p])
  }

  function Run<V>(events: seq<Event<V>>): State<V> {
    if events == [] then State(map[], []) else Step(Run(events[..|events| - 1]), events[|events| - 1])
  }

  class FanoutClient<V> {
    var active: map<string, Pending<V>>
    var fired: seq<(string, Result<V>)>

    ghost function Value(): State<V>
      reads this
    {
      State(active, fired)
    }

    constructor ()
      ensures Value() == Run([])
    {
      active, fired := map[], [];
    }

    method SendRpc(id: string, numResults: nat)
      modifies this
      ensures Value() == Step(old(Value()), Send(id, numResults))
    {
      if numResults == 0 {
        fired := fired + [(id, Result(map[], 0))];
        return;
      }
      active := active[id := Pending(map[], 0, numResults)];
    }

    /** One turn of the reply loop. */
    method OnReply(body: Reply<V>)
      modifies this
      ensures Value() == Step(old(Value()), Receive(body))
    {
      if body.source.None? || body.id.None? {
        return;
      }
      var id := body.id.value;
      if id !in active {
        return;
      }
      var actreq := active[id];
      if body.result.None? {
        actreq := actreq.(errors := actreq.errors + 1);
      } else {
        actreq := actreq.(answers := actreq.answers[body.source.value := body.result.value]);
      }
      active := active[id := actreq];
      if |actreq.answers| + actreq.errors >= actreq.numResults {
        fired := fired + [(id, Result(actreq.answers, actreq.errors))];
        active := active - {id};
      }
    }
  }

  // ---------- one request seen on its own ----------

  /** What becomes of one request, whatever else goes on at the same time. */
  datatype Progress<V> = Unsent | Waiting(pending: Pending<V>) | Done(numResults: nat, result: Result<V>)

  function Advance<V>(id: string, before: Progress<V>, e: Event<V>): Progress<V> {
    match e
    case Send(i, n) =>
      if i != id || !before.Unsent? then before
      else if n == 0 then Done(0, Result(map[], 0))
      else Waiting(Pending(map[], 0, n))
    case Receive(Reply(source, i, result)) =>
      if source.None? || i != Some(id) || !before.Waiting? then before else
      var p := WithReply(before.pending, source.value, result);
      if Counted(p.answers, p.errors) < p.numResults then Waiting(p)
      else Done(p.numResults, Result(p.answers, p.errors))
  }

  function Track<V>(id: string, events: seq<Event<V>>): Progress<V> {
    if events == [] then Unsent
    else Advance(id, Track(id, events[..|events| - 1]), events[|events| - 1])
  }

  /** uuid1 never repeats. */
  ghost predicate FreshIds<V>(events: seq<Event<V>>) {
    forall j, k :: 0 <= j < k < |events| && events[j].Send? && events[k].Send? ==> events[j].id != events[k].id
  }

  /** The results set for one request, in order. */
  function FiredFor<V>(id: string, fired: seq<(string, Result<V>)>): seq<Result<V>> {
    if fired == [] then [] else
    var (i, r) := fired[|fired| - 1];
    FiredFor(id, fired[..|fired| - 1]) + (if i == id then [r] else [])
  }

  ghost predicate SentIn<V>(id: string, events: seq<Event<V>>) {
    exists k :: 0 <= k < |events| && events[k].Send? && events[k].id == id
  }

  /** The view the whole client has of a request is the view of that request alone. */
  ghost predicate Agrees<V>(id: string, s: State<V>, t: Progress<V>) {
    match t
    case Unsent => id !in s.active && FiredFor(id, s.fired) == []
    case Waiting(p) => id in s.active && s.active[id] == p && FiredFor(id, s.fired) == []
    case Done(_, r) => id !in s.active && FiredFor(id, s.fired) == [r]
  }

  lemma FiredAppend<V>(id: string, fired: seq<(string, Result<V>)>, i: string, r: Result<V>)
    ensures FiredFor(id, fired + [(i, r)]) == FiredFor(id, fired) + (if i == id then [r] else [])
  {
    assert (fired + [(i, r)])[..|fired|] == fired;
  }

  lemma {:induction false} UnsentIffNoSend<V>(id: string, events: seq<Event<V>>)
    ensures Track(id, events).Unsent? <==> !SentIn(id, events)
    decreases |events|
  {
    if events != [] {
      var init, e := events[..|events| - 1], events[|events| - 1];
      UnsentIffNoSend(id, init);
      if SentIn(id, events) && !SentIn(id, init) {
        assert e.Send? && e.id == id;
      }
    }
  }

  lemma SendAgrees<V>(id: string, s: State<V>, t: Progress<V>, i: string, n: nat)
    requires Agrees(id, s, t) && (i == id ==> t.Unsent?)
    ensures Agrees(id, Step(s, Send(i, n)), Advance(id, t, Send(i, n)))
  {
    FiredAppend(id, s.fired, i, Result(map[], 0));
  }

  lemma ReceiveAgrees<V>(id: string, s: State<V>, t: Progress<V>, r: Reply<V>)
    requires Agrees(id, s, t)
    ensures Agrees(id, Step(s, Receive(r)), Advance(id, t, Receive(r)))
  {
    if r.source.Some? && r.id.Some? && r.id.value in s.active {
      if r.id.value == id {
        OwnReplyAgrees(id, s, t, r.source.value, r.result);
      } else {
        OtherReplyAgrees(id, s, t, r.id.value, r.source.value, r.result);
      }
    }
  }

  lemma OwnReplyAgrees<V>(id: string, s: State<V>, t: Progress<V>, source: string, result: Option<V>)
    requires Agrees(id, s, t) && id in s.active
    ensures var r := Receive(Reply(Some(source), Some(id), result)); Agrees(id, Step(s, r), Advance(id, t, r))
  {
    var p := WithReply(s.active[id], source, result);
    FiredAppend(id, s.fired, id, Result(p.answers, p.errors));
  }

  lemma OtherReplyAgrees<V>(id: string, s: State<V>, t: Progress<V>, other: string, source: string, result: Option<V>)
    requires Agrees(id, s, t) && other in s.active && other != id
    ensures var r := Receive(Reply(Some(source), Some(other), result)); Agrees(id, Step(s, r), Advance(id, t, r))
  {
    var r := Receive(Reply(Some(source), Some(other), result));
    var s' := Step(s, r);
    OtherReplyStep(id, s, other, source, result);
    SameRequest(id, s, s', t);
    assert Advance(id, t, r) == t;
  }

  lemma OtherReplyStep<V>(id: string, s: State<V>, other: string, source: string, result: Option<V>)
    requires other in s.active && other != id
    ensures var s' := Step(s, Receive(Reply(Some(source), Some(other), result)));
            && FiredFor(id, s'.fired) == FiredFor(id, s.fired)
            && (id in s'.active <==> id in s.active) && (id in s.active ==> s'.active[id] == s.active[id])
  {
    OtherReplyFires(s, other, source, result);
    var p := WithReply(s.active[other], source, result);
    var r := Receive(Reply(Some(source), Some(other), result));
    FiredOther(id, s.fired, Step(s, r).fired, other, Result(p.answers, p.errors));
  }

  lemma FiredOther<V>(id: string, fired: seq<(string, Result<V>)>, fired': seq<(string, Result<V>)>, other: string,
                      r: Result<V>)
    requires other != id && (fired' == fired || fired' == fired + [(other, r)])
    ensures FiredFor(id, fired') == FiredFor(id, fired)
  {
    FiredAppend(id, fired, other, r);
  }

  lemma OtherReplyFires<V>(s: State<V>, other: string, source: string, result: Option<V>)
    requires other in s.active
    ensures var s' := Step(s, Receive(Reply(Some(source), Some(other), result)));
            var p := WithReply(s.active[other], source, result);
            && (s'.fired == s.fired || s'.fired == s.fired + [(other, Result(p.answers, p.errors))])
            && forall i :: i != other ==>
                 (i in s'.active <==> i in s.active) && (i in s.active ==> s'.active[i] == s.active[i])
  {
  }

  lemma SameRequest<V>(id: string, s: State<V>, s': State<V>, t: Progress<V>)
    requires Agrees(id, s, t) && FiredFor(id, s'.fired) == FiredFor(id, s.fired)
    requires (id in s'.active <==> id in s.active) && (id in s.active ==> s'.active[id] == s.active[id])
    ensures Agrees(id, s', t)
  {
  }

  lemma {:induction false} RequestsDoNotInterfere<V>(id: string, events: seq<Event<V>>)
    requires FreshIds(events)
    ensures Agrees(id, Run(events), Track(id, events))
    decreases |events|
  {
    if events != [] {
      var init, e := events[..|events| - 1], events[|events| - 1];
      RequestsDoNotInterfere(id, init);
      UnsentIffNoSend(id, init);
      match e {
        case Send(i, n) => SendAgrees(id, Run(init), Track(id, init), i, n);
        case Receive(r) => ReceiveAgrees(id, Run(init), Track(id, init), r);
      }
    }
  }

  /** How far a request can have got: an unfinished one has fewer than
      num_results counted replies, a finished one exactly that many. */
  lemma {:induction false} CountIsExact<V>(id: string, events: seq<Event<V>>)
    ensures match Track(id, events)
            case Unsent => true
            case Waiting(p) => Counted(p.answers, p.errors) < p.numResults
            case Done(n, r) => Counted(r.answers, r.errors) == n
    decreases |events|
  {
    if events != [] {
      CountIsExact(id, events[..|events| - 1]);
    }
  }

  /** Under any order of late, repeated and unknown replies to any number of
      requests: each result is set once, at exactly num_results counted replies,
      and a request that waits has counted fewer. */
  lemma ResultSetOnce<V>(id: string, events: seq<Event<V>>)
    requires FreshIds(events)
    ensures var s := Run(events);
            && |FiredFor(id, s.fired)| <= 1
            && (id in s.active ==>
                  Counted(s.active[id].answers, s.active[id].errors) < s.active[id].numResults)
            && (FiredFor(id, s.fired) != [] ==>
                  && Track(id, events).Done? && id !in s.active
                  && Counted(FiredFor(id, s.fired)[0].answers, FiredFor(id, s.fired)[0].errors)
                     == Track(id, events).numResults)
  {
    RequestsDoNotInterfere(id, events);
    CountIsExact(id, events);
  }

  function AnswersOf<V>(t: Progress<V>): map<string, V> {
    match t case Unsent => map[] case Waiting(p) => p.answers case Done(_, r) => r.answers
  }

  ghost predicate Replied<V>(id: string, events: seq<Event<V>>, source: string, v: V) {
    exists k :: 0 <= k < |events| && events[k] == Receive(Reply(Some(source), Some(id), Some(v)))
  }

  /** Every collected answer was sent by that source in reply to that request. */
  lemma {:induction false} AnswersAreReplies<V>(id: string, events: seq<Event<V>>, source: string)
    requires source in AnswersOf(Track(id, events))
    ensures Replied(id, events, source, AnswersOf(Track(id, events))[source])
    decreases |events|
  {
    var init := events[..|events| - 1];
    var e := events[|events| - 1];
    var v := AnswersOf(Track(id, events))[source];
    if source in AnswersOf(Track(id, init)) && AnswersOf(Track(id, init))[source] == v {
      AnswersAreReplies(id, init, source);
      var k :| 0 <= k < |init| && init[k] == Receive(Reply(Some(source), Some(id), Some(v)));
      assert events[k] == init[k];
    } else {
      assert e == Receive(Reply(Some(source), Some(id), Some(v)));
    }
  }

  // ---------- when a request is done ----------

  /** The latest result of each source in reply to a request that has been sent. */
  function Results<V>(id: string, events: seq<Event<V>>): map<string, V> {
    if events == [] then map[] else
    var init, e := events[..|events| - 1], events[|events| - 1];
    if e.Receive? && e.reply.source.Some? && e.reply.id == Some(id) && e.reply.result.Some? && WasSent(id, init)
    then Results(id, init)[e.reply.source.value := e.reply.result.value]
    else Results(id, init)
  }

  /** The replies without a result to a request that has been sent. */
  function Failures<V>(id: string, events: seq<Event<V>>): nat {
    if events == [] then 0 else
    var init, e := events[..|events| - 1], events[|events| - 1];
    Failures(id, init) +
    if e.Receive? && e.reply.source.Some? && e.reply.id == Some(id) && e.reply.result.None? && WasSent(id, init)
    then 1 else 0
  }

  predicate WasSent<V>(id: string, events: seq<Event<V>>) {
    exists k | 0 <= k < |events| :: events[k].Send? && events[k].id == id
  }

  /** All that a moment of the run has collected for the request. */
  ghost predicate CollectedAt<V>(id: string, events: seq<Event<V>>, j: nat, n: nat, result: Result<V>) {
    && j <= |events| && result == Result(Results(id, events[..j]), Failures(id, events[..j]))
    && |result.answers| + result.errors == n
  }

  lemma NothingUnsent<V>(id: string, events: seq<Event<V>>)
    requires !WasSent(id, events)
    ensures Results(id, events) == map[] && Failures(id, events) == 0 && Track(id, events) == Unsent
    decreases |events|
  {
    if events != [] {
      NothingUnsent(id, events[..|events| - 1]);
      assert events[|events| - 1].Send? ==> events[|events| - 1].id != id;
    }
  }

  /** A request is done exactly when as many distinct sources have answered, or replies have failed, as
      results were asked for, and gives what had been collected at that moment; until
      then it holds what has been collected so far. */
  lemma {:induction false} DoneExactly<V>(id: string, events: seq<Event<V>>, k: nat)
    requires FreshIds(events) && k < |events| && events[k].Send? && events[k].id == id
    ensures var n, t := events[k].numResults, Track(id, events);
            && (t.Done? <==> |Results(id, events)| + Failures(id, events) >= n)
            && (!t.Done? ==> t == Waiting(Pending(Results(id, events), Failures(id, events), n)))
            && (t.Done? ==> t.numResults == n && exists j: nat :: CollectedAt(id, events, j, n, t.result))
    decreases |events|
  {
    var init, n := events[..|events| - 1], events[k].numResults;
    if k == |events| - 1 {
      NothingUnsent(id, init);
      if n == 0 {
        assert events[..|events|] == events;
        assert CollectedAt(id, events, |events|, 0, Result(map[], 0));
      }
    } else {
      DoneExactly(id, init, k);
      assert init[k] == events[k] && WasSent(id, init);
      var t := Track(id, init);
      if t.Done? {
        var j: nat :| CollectedAt(id, init, j, n, t.result);
        assert init[..j] == events[..j];
        assert CollectedAt(id, events, j, n, t.result);
      } else {
        assert events[..|events|] == events;
        LastReply(id, events, k);
      }
    }
  }

  lemma LastReply<V>(id: string, events: seq<Event<V>>, k: nat)
    requires FreshIds(events) && k < |events| - 1 && events[k].Send? && events[k].id == id
    requires WasSent(id, events[..|events| - 1]) && events[..|events|] == events
    requires var (init, n) := (events[..|events| - 1], events[k].numResults);
             && Track(id, init) == Waiting(Pending(Results(id, init), Failures(id, init), n))
             && |Results(id, init)| + Failures(id, init) < n
    ensures var (n, t) := (events[k].numResults, Track(id, events));
            && (t.Done? <==> |Results(id, events)| + Failures(id, events) >= n)
            && (!t.Done? ==> t == Waiting(Pending(Results(id, events), Failures(id, events), n)))
            && (t.Done? ==> t.numResults == n && CollectedAt(id, events, |events|, n, t.result))
  {
    CountIsExact(id, events);
  }

  // ---------- what init_graph hands to the planner ----------

  const SLAVE_PREFIX := "mbus:slave:"

  /** `k.split(':', n)[-1]`. */
  function AfterColons(k: string, n: nat): string {
    if n == 0 then k
    else if ':' !in k then k
    else AfterColons(k[FirstColon(k) + 1..], n - 1)
  }

  function FirstColon(k: string): (i: nat)
    requires ':' in k
    ensures i < |k| && k[i] == ':' && forall j :: 0 <= j < i ==> k[j] != ':'
  {
    if k[0] == ':' then 0 else 1 + FirstColon(k[1..])
  }

  function NodeOf(source: string): string {
    AfterColons(source, 2)
  }

  lemma FirstColonAt(k: string, i: nat)
    requires i < |k| && k[i] == ':' && forall j :: 0 <= j < i ==> k[j] != ':'
    ensures FirstColon(k) == i
  {
  }

  /** A slave's reply source gives back the node's name, even one with colons. */
  lemma NodeOfSlave(node: string)
    ensures NodeOf(SLAVE_PREFIX + node) == node
  {
    var k := SLAVE_PREFIX + node;
    FirstColonAt(k, 4);
    var rest := k[5..];
    assert rest == "slave:" + node;
    FirstColonAt(rest, 5);
    assert rest[6..] == node;
    assert AfterColons(rest, 1) == AfterColons(rest[6..], 0);
  }

  /** `{k.split(':', 2)[-1]: v for k, v in answers}`; sources are slaves, so no two collide. */
  function StateInfo<V>(answers: map<string, V>): map<string, V> {
    map node | node in (set k | k in answers :: NodeOf(k)) &&
        SLAVE_PREFIX + node in answers :: answers[SLAVE_PREFIX + node]
  }

  function Slaves(ftlist: set<string>): set<string> {
    set f | f in ftlist :: SLAVE_PREFIX + f
  }

  lemma {:induction false} SlavesCard(ftlist: set<string>)
    ensures |Slaves(ftlist)| == |ftlist|
  {
    if ftlist != {} {
      var f :| f in ftlist;
      SlavesCard(ftlist - {f});
      assert Slaves(ftlist) == Slaves(ftlist - {f}) + {SLAVE_PREFIX + f};
      if SLAVE_PREFIX + f in Slaves(ftlist - {f}) {
        var g :| g in ftlist - {f} && SLAVE_PREFIX + g == SLAVE_PREFIX + f;
        NodeOfSlave(f);
        NodeOfSlave(g);
        assert false;
      }
    }
  }

  lemma StateInfoOfSlaves<V>(answers: map<string, V>, ftlist: set<string>)
    requires answers.Keys == Slaves(ftlist)
    ensures StateInfo(answers).Keys == ftlist
    ensures forall node :: node in ftlist ==>
              SLAVE_PREFIX + node in answers && StateInfo(answers)[node] == answers[SLAVE_PREFIX + node]
  {
    forall node | node in ftlist ensures SLAVE_PREFIX + node in answers && node in StateInfo(answers) {
      NodeOfSlave(node);
      assert SLAVE_PREFIX + node in answers.Keys;
    }
    forall node | node in StateInfo(answers) ensures node in ftlist {
      assert SLAVE_PREFIX + node in Slaves(ftlist);
      var f :| f in ftlist && SLAVE_PREFIX + f == SLAVE_PREFIX + node;
      NodeOfSlave(f);
      NodeOfSlave(node);
    }
  }

  ghost predicate OnlyFrom<V>(id: string, events: seq<Event<V>>, sources: set<string>) {
    forall k | 0 <= k < |events| && events[k].Receive? ::
      events[k].reply.id == Some(id) && events[k].reply.source.Some? && events[k].reply.result.Some? ==>
        events[k].reply.source.value in sources
  }

  lemma AllAnswered<V>(id: string, events: seq<Event<V>>, ftlist: set<string>)
    requires Track(id, events).Done? && Track(id, events).numResults == |ftlist|
    requires Track(id, events).result.errors == 0
    requires OnlyFrom(id, events, Slaves(ftlist))
    ensures Track(id, events).result.answers.Keys == Slaves(ftlist)
  {
    var answers := Track(id, events).result.answers;
    CountIsExact(id, events);
    forall source | source in answers.Keys ensures source in Slaves(ftlist) {
      AnswersAreReplies(id, events, source);
    }
    SlavesCard(ftlist);
    assert |answers.Keys| == |answers|;
    SubsetCard(answers.Keys, Slaves(ftlist));
  }

  /** With no errors and results only from the nodes of the graph, a finished
      state_info request has a genuine answer of every node, and the planner is
      given an entry for each. */
  lemma InitGraphSeesEveryNode<V>(id: string, events: seq<Event<V>>, ftlist: set<string>)
    requires FreshIds(events)
    requires Track(id, events).Done? && Track(id, events).numResults == |ftlist|
    requires Track(id, events).result.errors == 0
    requires OnlyFrom(id, events, Slaves(ftlist))
    ensures var answers := Track(id, events).result.answers;
            && FiredFor(id, Run(events).fired) == [Result(answers, 0)]
            && StateInfo(answers).Keys == ftlist
            && forall node :: node in ftlist ==> Replied(id, events, SLAVE_PREFIX + node, StateInfo(answers)[node])
  {
    var answers := Track(id, events).result.answers;
    RequestsDoNotInterfere(id, events);
    AllAnswered(id, events, ftlist);
    StateInfoOfSlaves(answers, ftlist);
    forall node | node in ftlist ensures Replied(id, events, SLAVE_PREFIX + node, StateInfo(answers)[node]) {
      AnswersAreReplies(id, events, SLAVE_PREFIX + node);
    }
  }
}
