/** Calls of `publish` on one channel that overlap. A call chooses its list from
    num_publish when it begins, appends later, and counts its message after that;
    other calls may begin, append and count in between. */
module OverlappingCalls {
  import opened Sets
  import TopicProtocol

  const LIST_SIZE := TopicProtocol.LIST_SIZE

  datatype Call<M> = Chosen(list: nat, msg: M) | Appended
  datatype State<M> = State(num: nat, lists: map<nat, seq<M>>, calls: map<nat, Call<M>>)
  datatype Action<M> = Begin(id: nat, msg: M) | Append(id: nat) | Count(id: nat)

  function List<M>(s: State<M>, l: nat): seq<M> {
    if l in s.lists then s.lists[l] else []
  }

  /** One atomic action; an action that is not enabled changes nothing. */
  function Apply<M>(s: State<M>, a: Action<M>): State<M> {
    match a
    case Begin(id, msg) =>
      if id in s.calls then s else s.(calls := s.calls[id := Chosen(s.num / LIST_SIZE, msg)])
    case Append(id) =>
      if id !in s.calls || !s.calls[id].Chosen? then s else
      var l := s.calls[id].list;
      s.(lists := s.lists[l := List(s, l) + [s.calls[id].msg]], calls := s.calls[id := Appended])
    case Count(id) =>
      if id !in s.calls || !s.calls[id].Appended? then s
      else s.(num := s.num + 1, calls := s.calls - {id})
  }

  function Run<M>(s: State<M>, actions: seq<Action<M>>): State<M>
    decreases |actions|
  {
    if actions == [] then s else Run(Apply(s, actions[0]), actions[1..])
  }

  function Init<M>(): State<M> { State(0, map[], map[]) }

  /** The log of num messages is cut into full lists, the last one apart. */
  ghost predicate WellCut<M>(s: State<M>) {
    forall l: nat :: |List(s, l)| == Share(s.num, l)
  }

  /** How many of the first n messages belong to list l. */
  function Share(n: nat, l: nat): nat {
    if n <= LIST_SIZE * l then 0
    else if n >= LIST_SIZE * l + LIST_SIZE then LIST_SIZE
    else n - LIST_SIZE * l
  }

  /** The calls under way already fill the list that num_publish points to. */
  predicate ListIsTaken<M>(s: State<M>) {
    s.num % LIST_SIZE + |s.calls| >= LIST_SIZE
  }

  /** No call begins while the calls under way fill the current list. */
  ghost predicate Spaced<M>(s: State<M>, actions: seq<Action<M>>)
    decreases |actions|
  {
    actions != [] ==>
      && (actions[0].Begin? && actions[0].id !in s.calls ==> !ListIsTaken(s))
      && Spaced(Apply(s, actions[0]), actions[1..])
  }

  function Bound<M>(calls: map<nat, Call<M>>, l: nat): set<nat> {
    set id | id in calls && calls[id].Chosen? && calls[id].list == l
  }

  /** Messages that list l holds or is going to hold. */
  function Destined<M>(s: State<M>, l: nat): nat {
    |List(s, l)| + |Bound(s.calls, l)|
  }

  function Begun<M>(s: State<M>): nat { s.num + |s.calls| }

  ghost predicate OnTrack<M>(s: State<M>) {
    forall l: nat :: Destined(s, l) == Share(Begun(s), l)
  }

  lemma BeginDestines<M>(s: State<M>, id: nat, msg: M, l: nat)
    requires id !in s.calls
    ensures var t := Apply(s, Begin(id, msg));
            Destined(t, l) == Destined(s, l) + (if l == s.num / LIST_SIZE then 1 else 0)
    ensures Begun(Apply(s, Begin(id, msg))) == Begun(s) + 1
  {
    var t := Apply(s, Begin(id, msg));
    assert List(t, l) == List(s, l);
    BoundOne(s.calls, id, s.num / LIST_SIZE, msg, l);
  }

  lemma BoundOne<M>(calls: map<nat, Call<M>>, id: nat, list: nat, msg: M, l: nat)
    requires id !in calls
    ensures var more := calls[id := Chosen(list, msg)];
            && |more| == |calls| + 1
            && |Bound(more, l)| == |Bound(calls, l)| + (if l == list then 1 else 0)
  {
    var more := calls[id := Chosen(list, msg)];
    if l == list {
      assert Bound(more, l) == Bound(calls, l) + {id};
    } else {
      assert Bound(more, l) == Bound(calls, l);
    }
  }

  lemma AppendDestines<M>(s: State<M>, id: nat, l: nat)
    ensures var t := Apply(s, Append(id));
            Destined(t, l) == Destined(s, l) && Begun(t) == Begun(s)
  {
    var t := Apply(s, Append(id));
    if t != s {
      assert t.calls.Keys == s.calls.Keys;
      if l == s.calls[id].list {
        assert Bound(s.calls, l) == Bound(t.calls, l) + {id};
      } else {
        assert Bound(s.calls, l) == Bound(t.calls, l);
      }
    }
  }

  lemma CountDestines<M>(s: State<M>, id: nat, l: nat)
    ensures var t := Apply(s, Count(id));
            Destined(t, l) == Destined(s, l) && Begun(t) == Begun(s)
  {
    var t := Apply(s, Count(id));
    if t != s {
      assert s.calls.Keys == t.calls.Keys + {id};
      assert Bound(s.calls, l) == Bound(t.calls, l);
    }
  }

  /** What an action does to the number of messages destined for a list. */
  lemma ApplyDestines<M>(s: State<M>, a: Action<M>, l: nat)
    ensures var t := Apply(s, a);
            var begins := a.Begin? && a.id !in s.calls;
            && Destined(t, l) == Destined(s, l) + (if begins && l == s.num / LIST_SIZE then 1 else 0)
            && Begun(t) == Begun(s) + (if begins then 1 else 0)
  {
    match a {
      case Begin(id, msg) => if id !in s.calls { BeginDestines(s, id, msg, l); }
      case Append(id) => AppendDestines(s, id, l);
      case Count(id) => CountDestines(s, id, l);
    }
  }

  lemma SpacedStep<M>(s: State<M>, a: Action<M>)
    requires OnTrack(s) && (a.Begin? && a.id !in s.calls ==> !ListIsTaken(s))
    ensures OnTrack(Apply(s, a))
  {
    var t := Apply(s, a);
    forall l: nat ensures Destined(t, l) == Share(Begun(t), l) {
      ApplyDestines(s, a, l);
      assert Destined(s, l) == Share(Begun(s), l);
    }
  }

  lemma {:induction false} SpacedRun<M>(s: State<M>, actions: seq<Action<M>>)
    requires OnTrack(s) && Spaced(s, actions)
    ensures OnTrack(Run(s, actions))
    decreases |actions|
  {
    if actions != [] {
      SpacedStep(s, actions[0]);
      SpacedRun(Apply(s, actions[0]), actions[1..]);
    }
  }

  lemma {:induction false} DestinedGrows<M>(s: State<M>, actions: seq<Action<M>>, l: nat)
    ensures Destined(Run(s, actions), l) >= Destined(s, l)
    decreases |actions|
  {
    if actions != [] {
      ApplyDestines(s, actions[0], l);
      DestinedGrows(Apply(s, actions[0]), actions[1..], l);
    }
  }

  /** The first call that begins too early overfills its list. */
  lemma {:induction false} UnspacedOverfills<M>(s: State<M>, actions: seq<Action<M>>) returns (l: nat)
    requires OnTrack(s) && !Spaced(s, actions)
    ensures Destined(Run(s, actions), l) > LIST_SIZE
    decreases |actions|
  {
    var a := actions[0];
    if a.Begin? && a.id !in s.calls && ListIsTaken(s) {
      l := s.num / LIST_SIZE;
      assert Destined(s, l) == Share(Begun(s), l) == LIST_SIZE;
      ApplyDestines(s, a, l);
      DestinedGrows(Apply(s, a), actions[1..], l);
    } else {
      SpacedStep(s, a);
      l := UnspacedOverfills(Apply(s, a), actions[1..]);
    }
  }

  lemma NoneBound<M>(s: State<M>, l: nat)
    requires s.calls == map[]
    ensures Destined(s, l) == |List(s, l)| && Begun(s) == s.num
  {
    assert Bound(s.calls, l) == {};
  }

  /** Exactly when overlapping calls are harmless. Once all calls have returned, the log is
      cut into full lists if and only if no call began while the calls under way
      filled the list that num_publish pointed to. */
  lemma OverlapExactly<M>(actions: seq<Action<M>>)
    requires Run(Init<M>(), actions).calls == map[]
    ensures WellCut(Run(Init<M>(), actions)) <==> Spaced(Init<M>(), actions)
  {
    var s, t := Init<M>(), Run(Init<M>(), actions);
    forall l: nat ensures Destined(s, l) == Share(Begun(s), l) {
      NoneBound(s, l);
    }
    if Spaced(s, actions) {
      SpacedRun(s, actions);
      forall l: nat ensures |List(t, l)| == Share(t.num, l) {
        NoneBound(t, l);
        assert Destined(t, l) == Share(Begun(t), l);
      }
    } else {
      var l := UnspacedOverfills(s, actions);
      NoneBound(t, l);
      assert |List(t, l)| > LIST_SIZE >= Share(t.num, l);
    }
  }

  /** One call at a time is always spaced. */
  lemma {:induction false} OneAtATime<M>(s: State<M>, actions: seq<Action<M>>)
    requires |s.calls| <= 1 && Sequential(s, actions)
    ensures Spaced(s, actions)
    decreases |actions|
  {
    if actions != [] {
      CallsStep(s, actions[0]);
      OneAtATime(Apply(s, actions[0]), actions[1..]);
    }
  }

  ghost predicate Sequential<M>(s: State<M>, actions: seq<Action<M>>)
    decreases |actions|
  {
    actions != [] ==> (actions[0].Begin? ==> s.calls == map[]) && Sequential(Apply(s, actions[0]), actions[1..])
  }

  lemma CallsStep<M>(s: State<M>, a: Action<M>)
    requires |s.calls| <= 1 && (a.Begin? ==> s.calls == map[])
    ensures |Apply(s, a).calls| <= 1
  {
    var t := Apply(s, a);
    assert t.calls.Keys <= s.calls.Keys + (if a.Begin? then {a.id} else {});
    SubsetCard(t.calls.Keys, s.calls.Keys + (if a.Begin? then {a.id} else {}));
  }

  lemma {:induction false} RunConcat<M>(s: State<M>, a: seq<Action<M>>, b: seq<Action<M>>)
    ensures Run(s, a + b) == Run(Run(s, a), b)
    decreases |a|
  {
    if a == [] {
      assert a + b == b;
    } else {
      assert (a + b)[1..] == a[1..] + b;
      RunConcat(Apply(s, a[0]), a[1..], b);
    }
  }

  lemma RunOne<M>(s: State<M>, a: Action<M>, rest: seq<Action<M>>)
    ensures Run(s, [a] + rest) == Run(Apply(s, a), rest)
  {
    assert ([a] + rest)[1..] == rest;
  }

  // ---------- runs that go wrong ----------

  /** One call from beginning to end. */
  function Call1<M>(msg: M): seq<Action<M>> { [Begin(0, msg), Append(0), Count(0)] }

  lemma OneCall<M>(s: State<M>, msg: M)
    requires s.calls == map[]
    ensures Run(s, Call1(msg)).calls == map[] && Run(s, Call1(msg)).num == s.num + 1
  {
    var s1 := Apply(s, Begin(0, msg));
    var s2 := Apply(s1, Append(0));
    assert s2.calls == map[0 := Appended];
    RunOne(s, Begin(0, msg), [Append(0), Count(0)]);
    RunOne(s1, Append(0), [Count(0)]);
    RunOne(s2, Count(0), []);
    var append: Action<M>, count: Action<M> := Append(0), Count(0);
    assert [count] == [count] + [] && [append, count] == [append] + [count];
    assert Call1(msg) == [Begin(0, msg)] + [Append(0), Count(0)];
  }

  lemma CallsInTurn<M>(n: nat, msg: M) returns (actions: seq<Action<M>>)
    ensures Run(Init<M>(), actions).calls == map[] && Run(Init<M>(), actions).num == n
  {
    if n == 0 {
      actions := [];
    } else {
      var before := CallsInTurn(n - 1, msg);
      OneCall(Run(Init<M>(), before), msg);
      RunConcat(Init<M>(), before, Call1(msg));
      actions := before + Call1(msg);
    }
  }

  lemma {:induction false} SpacedSuffix<M>(s: State<M>, a: seq<Action<M>>, b: seq<Action<M>>)
    ensures Spaced(s, a + b) <==> Spaced(s, a) && Spaced(Run(s, a), b)
    decreases |a|
  {
    if a == [] {
      assert a + b == b;
    } else {
      assert (a + b)[1..] == a[1..] + b;
      SpacedSuffix(Apply(s, a[0]), a[1..], b);
    }
  }

  /** Two calls that begin after 4095 messages are not spaced: such runs exist. */
  lemma UnspacedRun<M>(msg: M) returns (actions: seq<Action<M>>)
    ensures !Spaced(Init<M>(), actions)
  {
    var before := CallsInTurn(LIST_SIZE - 1, msg);
    var s := Run(Init<M>(), before);
    var two := [Begin(0, msg), Begin(1, msg)];
    var s1 := Apply(s, Begin(0, msg));
    assert s1.calls == map[0 := Chosen(0, msg)] && ListIsTaken(s1);
    assert two[1..] == [Begin(1, msg)];
    assert !Spaced(s1, two[1..]);
    SpacedSuffix(Init<M>(), before, two);
    actions := before + two;
  }

  /** No call of the run looks at the subscribers' counters or collects. */
  ghost predicate NeverChecks<M>(s: State<M>, actions: seq<Action<M>>)
    decreases |actions|
  {
    actions != [] ==>
      && (actions[0].Begin? ==> !TopicProtocol.ChecksWindow(s.num))
      && NeverChecks(Apply(s, actions[0]), actions[1..])
  }

  /** Two calls that begin together and return before the next two begin. */
  function CallPair<M>(msg: M): seq<Action<M>> {
    [Begin(0, msg), Begin(1, msg), Append(0), Append(1), Count(0), Count(1)]
  }

  lemma OnePair<M>(s: State<M>, msg: M)
    requires s.calls == map[] && s.num % 2 == 0
    ensures var t := Run(s, CallPair(msg)); t.calls == map[] && t.num == s.num + 2
    ensures Spaced(s, CallPair(msg)) && NeverChecks(s, CallPair(msg))
  {
    var s1 := Apply(s, Begin(0, msg));
    var s2 := Apply(s1, Begin(1, msg));
    assert !TopicProtocol.ChecksWindow(s.num);
    assert s2.calls.Keys == {0, 1} && s1.calls.Keys == {0};
    var returning: seq<Action<M>> := [Append(0), Append(1), Count(0), Count(1)];
    ReturnTwo(s2);
    NoBegins(s2, returning);
    RunOne(s1, Begin(1, msg), returning);
    RunOne(s, Begin(0, msg), [Begin(1, msg)] + returning);
    assert CallPair(msg) == [Begin(0, msg)] + ([Begin(1, msg)] + returning);
    SpacedPair(s, s1, s2, msg, returning);
  }

  lemma ReturnTwo<M>(s: State<M>)
    requires s.calls.Keys == {0, 1} && s.calls[0].Chosen? && s.calls[1].Chosen?
    ensures var t := Run(s, [Append(0), Append(1), Count(0), Count(1)]); t.calls == map[] && t.num == s.num + 2
  {
    var s1 := Apply(s, Append(0));
    var s2 := Apply(s1, Append(1));
    var s3 := Apply(s2, Count(0));
    RunOne(s, Append(0), [Append(1), Count(0), Count(1)]);
    RunOne(s1, Append(1), [Count(0), Count(1)]);
    RunOne(s2, Count(0), [Count(1)]);
    RunOne(s3, Count(1), []);
    var a0: Action<M>, a1: Action<M>, c0: Action<M>, c1: Action<M> := Append(0), Append(1), Count(0), Count(1);
    assert [a0] + [a1, c0, c1] == [a0, a1, c0, c1] && [a1] + [c0, c1] == [a1, c0, c1];
    assert [c0] + [c1] == [c0, c1] && [c1] + [] == [c1];
    assert s3.calls.Keys == {1};
  }

  lemma {:induction false} NoBegins<M>(s: State<M>, actions: seq<Action<M>>)
    requires forall a :: a in actions ==> !a.Begin?
    ensures Spaced(s, actions) && NeverChecks(s, actions)
    decreases |actions|
  {
    if actions != [] {
      NoBegins(Apply(s, actions[0]), actions[1..]);
    }
  }

  lemma SpacedPair<M>(s: State<M>, s1: State<M>, s2: State<M>, msg: M, rest: seq<Action<M>>)
    requires s.calls == map[] && s.num % 2 == 0 && !TopicProtocol.ChecksWindow(s.num)
    requires s1 == Apply(s, Begin(0, msg)) && s2 == Apply(s1, Begin(1, msg)) && s1.calls.Keys == {0}
    requires Spaced(s2, rest) && NeverChecks(s2, rest)
    ensures Spaced(s, [Begin(0, msg)] + ([Begin(1, msg)] + rest))
    ensures NeverChecks(s, [Begin(0, msg)] + ([Begin(1, msg)] + rest))
  {
    var second := [Begin(1, msg)] + rest;
    assert second[1..] == rest && ([Begin(0, msg)] + second)[1..] == second;
    assert |s1.calls| == |s1.calls.Keys| == 1;
    assert Spaced(s1, second) && NeverChecks(s1, second);
  }

  lemma {:induction false} ChecksConcat<M>(s: State<M>, a: seq<Action<M>>, b: seq<Action<M>>)
    requires NeverChecks(s, a) && NeverChecks(Run(s, a), b)
    ensures NeverChecks(s, a + b)
    decreases |a|
  {
    if a == [] {
      assert a + b == b;
    } else {
      assert (a + b)[1..] == a[1..] + b;
      ChecksConcat(Apply(s, a[0]), a[1..], b);
    }
  }

  /** Spacing is not enough for the window. Two calls at a time can publish any number of messages into a
      well-cut log without one look at the subscribers' counters and without one
      collection, because the checks fall on odd numbers: the backlog and the
      number of lists have no bound. */
  lemma NothingThrottles<M>(n: nat, msg: M) returns (actions: seq<Action<M>>)
    ensures Spaced(Init<M>(), actions) && NeverChecks(Init<M>(), actions)
    ensures var t := Run(Init<M>(), actions); t.num == 2 * n && t.calls == map[] && WellCut(t)
  {
    actions := PairsInTurn(n, msg);
    OverlapExactly(actions);
  }

  lemma PairsInTurn<M>(n: nat, msg: M) returns (actions: seq<Action<M>>)
    ensures Spaced(Init<M>(), actions) && NeverChecks(Init<M>(), actions)
    ensures var t := Run(Init<M>(), actions); t.num == 2 * n && t.calls == map[]
  {
    if n == 0 {
      actions := [];
    } else {
      var before := PairsInTurn(n - 1, msg);
      var s := Run(Init<M>(), before);
      OnePair(s, msg);
      RunConcat(Init<M>(), before, CallPair(msg));
      SpacedSuffix(Init<M>(), before, CallPair(msg));
      ChecksConcat(Init<M>(), before, CallPair(msg));
      actions := before + CallPair(msg);
    }
  }

  // ---------- what becomes of the surplus ----------

  function Cropped<M>(queues: map<string, seq<M>>): map<string, seq<M>> {
    map q | q in queues :: queues[q][..TopicProtocol.Min(|queues[q]|, LIST_SIZE)]
  }

  /** Whatever a list holds behind its 4096th message, no subscriber ever reads:
      every batch is the same as if it were not there. */
  lemma SurplusIsNeverRead<M>(name: nat -> string, queues: map<string, seq<M>>, counter: nat)
    ensures TopicProtocol.NextBatch(name, queues, counter) == TopicProtocol.NextBatch(name, Cropped(queues), counter)
  {
  }

  function SumOf(f: nat -> nat, n: nat): nat {
    if n == 0 then 0 else SumOf(f, n - 1) + f(n - 1)
  }

  lemma {:induction false} SumChanges(f: nat -> nat, g: nat -> nat, at: nat, add: nat, n: nat)
    requires forall l: nat :: g(l) == f(l) + (if l == at then add else 0)
    ensures SumOf(g, n) == SumOf(f, n) + (if at < n then add else 0)
  {
    if n > 0 {
      SumChanges(f, g, at, add, n - 1);
    }
  }

  lemma {:induction false} SumBeyond(f: nat -> nat, m: nat, n: nat)
    requires m <= n && forall l: nat :: m <= l ==> f(l) == 0
    ensures SumOf(f, n) == SumOf(f, m)
  {
    if m < n {
      SumBeyond(f, m, n - 1);
    }
  }

  /** Lists that all hold at least their share, and together no more, hold exactly their share. */
  lemma {:induction false} EnoughIsExact(f: nat -> nat, num: nat, n: nat)
    requires forall l: nat :: f(l) >= Share(num, l)
    ensures SumOf(f, n) >= TopicProtocol.Min(num, LIST_SIZE * n)
    ensures SumOf(f, n) == TopicProtocol.Min(num, LIST_SIZE * n) ==> forall l: nat :: l < n ==> f(l) == Share(num, l)
  {
    if n > 0 {
      EnoughIsExact(f, num, n - 1);
    }
  }

  function DestinedOf<M>(s: State<M>): nat -> nat {
    (l: nat) => Destined(s, l)
  }

  /** Nothing is destined beyond the current list, and every message for some list. */
  ghost predicate AllDestined<M>(s: State<M>) {
    && (forall l: nat :: l > s.num / LIST_SIZE ==> DestinedOf(s)(l) == 0)
    && SumOf(DestinedOf(s), s.num / LIST_SIZE + 1) == Begun(s)
  }

  lemma StepKeepsDestined<M>(s: State<M>, a: Action<M>)
    requires AllDestined(s)
    ensures AllDestined(Apply(s, a))
  {
    var t := Apply(s, a);
    var cur := s.num / LIST_SIZE;
    var add := if a.Begin? && a.id !in s.calls then 1 else 0;
    forall l: nat ensures DestinedOf(t)(l) == DestinedOf(s)(l) + (if l == cur then add else 0) {
      ApplyDestines(s, a, l);
    }
    ApplyDestines(s, a, 0);
    assert cur <= t.num / LIST_SIZE;
    SumSteps(DestinedOf(s), DestinedOf(t), cur, t.num / LIST_SIZE, add);
  }

  lemma SumSteps(f: nat -> nat, g: nat -> nat, cur: nat, next: nat, add: nat)
    requires cur <= next && forall l: nat :: l > cur ==> f(l) == 0
    requires forall l: nat :: g(l) == f(l) + (if l == cur then add else 0)
    ensures forall l: nat :: l > next ==> g(l) == 0
    ensures SumOf(g, next + 1) == SumOf(f, cur + 1) + add
  {
    SumChanges(f, g, cur, add, cur + 1);
    SumBeyond(g, cur + 1, next + 1);
  }

  lemma {:induction false} RunKeepsDestined<M>(s: State<M>, actions: seq<Action<M>>)
    requires AllDestined(s)
    ensures AllDestined(Run(s, actions))
    decreases |actions|
  {
    if actions != [] {
      StepKeepsDestined(s, actions[0]);
      RunKeepsDestined(Apply(s, actions[0]), actions[1..]);
    }
  }

  /** After a bad cut, once all calls have returned, some list is short of its share:
      the message that belongs at its end is behind the end of another list. */
  lemma SurplusMeansShort<M>(actions: seq<Action<M>>)
    requires Run(Init<M>(), actions).calls == map[] && !Spaced(Init<M>(), actions)
    ensures var t := Run(Init<M>(), actions); exists l: nat :: |List(t, l)| < Share(t.num, l)
  {
    var t := Run(Init<M>(), actions);
    OverlapExactly(actions);
    NothingDestined<M>();
    RunKeepsDestined(Init<M>(), actions);
    if forall l: nat :: |List(t, l)| >= Share(t.num, l) {
      EnoughIsWellCut(t);
      assert false;
    }
  }

  lemma NothingDestined<M>()
    ensures AllDestined(Init<M>())
  {
    forall l: nat ensures DestinedOf(Init<M>())(l) == 0 {
      NoneBound(Init<M>(), l);
    }
    SumBeyond(DestinedOf(Init<M>()), 0, 1);
  }

  lemma EnoughIsWellCut<M>(t: State<M>)
    requires t.calls == map[] && AllDestined(t) && forall l: nat :: |List(t, l)| >= Share(t.num, l)
    ensures WellCut(t)
  {
    var n := t.num / LIST_SIZE + 1;
    forall l: nat ensures DestinedOf(t)(l) == |List(t, l)| {
      NoneBound(t, l);
    }
    EnoughIsExact(DestinedOf(t), t.num, n);
    forall l: nat ensures |List(t, l)| == Share(t.num, l) {
      assert l >= n ==> DestinedOf(t)(l) == 0;
    }
  }

  /** A list that num_publish has left behind, and that no call is bound for, never changes again. */
  lemma {:induction false} LeftBehind<M>(s: State<M>, actions: seq<Action<M>>, l: nat)
    requires s.num >= LIST_SIZE * (l + 1) && Bound(s.calls, l) == {}
    ensures List(Run(s, actions), l) == List(s, l)
    decreases |actions|
  {
    if actions != [] {
      var t := Apply(s, actions[0]);
      LeftBehindStep(s, actions[0], l);
      LeftBehind(t, actions[1..], l);
    }
  }

  lemma LeftBehindStep<M>(s: State<M>, a: Action<M>, l: nat)
    requires s.num >= LIST_SIZE * (l + 1) && Bound(s.calls, l) == {}
    ensures var t := Apply(s, a); t.num >= LIST_SIZE * (l + 1) && Bound(t.calls, l) == {} && List(t, l) == List(s, l)
  {
    assert forall id :: id in s.calls && s.calls[id].Chosen? ==> s.calls[id].list != l || id in Bound(s.calls, l);
    assert s.num / LIST_SIZE != l;
  }

  /** And a subscriber that has not got beyond such a list, while the list is short, never does. */
  lemma ShortListStops<M>(name: nat -> string, queues: map<string, seq<M>>, l: nat, counter: nat)
    requires name(l) in queues && |queues[name(l)]| < LIST_SIZE
    requires LIST_SIZE * l <= counter <= LIST_SIZE * l + |queues[name(l)]|
    ensures counter + |TopicProtocol.NextBatch(name, queues, counter)| <= LIST_SIZE * l + |queues[name(l)]|
  {
    assert counter / LIST_SIZE == l;
  }
}
