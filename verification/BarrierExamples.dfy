/** The smallest graph on which a barrier loses messages: a source s and a node c that
    either lists it twice or hears from it too late. */
module BarrierExamples {
  import opened Options
  import opened Nodes
  import opened Handlers
  import opened Graphs
  import opened Barrier
  import opened BarrierTheorems
  import opened BarrierLosses

  function StartedNode(inputs: seq<string>): Process<int> {
    Process(Node(inputs, true, "", STARTED, map[], None, Missing, [], 0), Steady)
  }

  function Pair(inputs: seq<string>): Net<int>
    requires |inputs| <= 2
  {
    Net(map["s" := StartedNode([]), "c" := StartedNode(inputs)],
        map[("c", 0) := 0, ("c", 1) := 0], {"s", "c"}, 0)
  }

  lemma PairIsValid(inputs: seq<string>)
    requires inputs == ["s"] || inputs == ["s", "s"]
    ensures Started(Pair(inputs)) && Acyclic(InputsOf(Pair(inputs)))
  {
    PairIsStarted(inputs);
    TwoLevelsAreAcyclic(InputsOf(Pair(inputs)));
  }

  lemma PairIsStarted(inputs: seq<string>)
    requires inputs == ["s"] || inputs == ["s", "s"]
    ensures Started(Pair(inputs))
  {
  }

  lemma TwoLevelsAreAcyclic(g: Inputs)
    requires g.Keys == {"s", "c"} && g["s"] == [] && forall x :: x in g["c"] ==> x == "s"
    ensures Acyclic(g)
  {
    forall p: seq<string> | |p| >= 2 && Walk(g, p) ensures p[0] != p[|p| - 1] {
      var last := |p| - 2;
      assert p[0] in g && p[0 + 1] in g[p[0]];
      assert p[last] in g && p[last + 1] in g[p[last]];
    }
  }

  /** The source publishes one message, then its checkpoint. */
  function Announce(): seq<Action<int>> {
    [Emit("s", [Update(1)]), Command("s"), Step("s"), Step("s"), Step("s")]
  }

  function AnnouncedPair(inputs: seq<string>, v: string): Net<int>
    requires |inputs| <= 2
  {
    Net(map["s" := AnnouncedSource(v), "c" := StartedNode(inputs)], map[("c", 0) := 0, ("c", 1) := 0], {"c"}, 0)
  }

  function AnnouncedSource(v: string): Process<int> {
    Process(Node([], true, "", IDLE, map[], Some(v), Saved(v, ""), [Update(1), Checkpoint(v)], 0), Steady)
  }

  lemma SourceAnnounces(v: string)
    ensures var p := Emitted(StartedNode([]), [Update(1)]);
            Advance(Advance(Advance(BeginMgmtCheckpoint(p, v)))) == AnnouncedSource(v)
  {
    assert [] + [Update(1)] == [Update(1)];
    assert [Update(1)] + [Checkpoint(v)] == [Update(1), Checkpoint(v)];
  }

  lemma AfterAnnouncing(inputs: seq<string>, v: string)
    requires |inputs| <= 2
    ensures Run(Pair(inputs), Announce(), v) == AnnouncedPair(inputs, v)
  {
    var p := Emitted(StartedNode([]), [Update(1)]);
    RunFive(Pair(inputs), Emit("s", [Update(1)]), Command("s"), Step("s"), v);
    SourceSteps(Pair(inputs), p, v);
    SourceAnnounces(v);
    assert Pair(inputs).nodes["s" := AnnouncedSource(v)] == AnnouncedPair(inputs, v).nodes;
    assert Pair(inputs).pending - {"s"} == {"c"};
  }

  lemma SourceSteps(n: Net<int>, p: Process<int>, v: string)
    requires "s" in n.nodes && "s" in n.pending && p == Emitted(n.nodes["s"], [Update(1)])
    ensures var step: Action<int> := Step("s");
            var begun := Apply(Apply(n, Emit("s", [Update(1)]), v), Command("s"), v);
            Apply(Apply(Apply(begun, step, v), step, v), step, v) ==
            n.(nodes := n.nodes["s" := Advance(Advance(Advance(BeginMgmtCheckpoint(p, v))))],
                pending := n.pending - {"s"})
  {
    var q := BeginMgmtCheckpoint(p, v);
    assert Apply(Apply(n, Emit("s", [Update(1)]), v), Command("s"), v) ==
      n.(nodes := n.nodes["s" := q], pending := n.pending - {"s"});
    StepThrice(n.(nodes := n.nodes["s" := q], pending := n.pending - {"s"}), "s", q, v);
    assert n.nodes["s" := q]["s" := Advance(Advance(Advance(q)))] == n.nodes["s" := Advance(Advance(Advance(q)))];
  }

  lemma StepThrice<D>(n: Net<D>, s: string, q: Process<D>, v: string)
    requires s in n.nodes && n.nodes[s] == q
    ensures Apply(Apply(Apply(n, Step(s), v), Step(s), v), Step(s), v) ==
            n.(nodes := n.nodes[s := Advance(Advance(Advance(q)))])
  {
    var n1 := Apply(n, Step(s), v);
    var n2 := Apply(n1, Step(s), v);
    assert n1.nodes == n.nodes[s := Advance(q)];
    assert n2.nodes == n.nodes[s := Advance(Advance(q))];
    assert Apply(n2, Step(s), v).nodes == n.nodes[s := Advance(Advance(Advance(q)))];
  }

  lemma RunFive<D>(n: Net<D>, a: Action<D>, b: Action<D>, c: Action<D>, v: string)
    ensures Run(n, [a, b, c, c, c], v) == Apply(Apply(Apply(Apply(Apply(n, a, v), b, v), c, v), c, v), c, v)
  {
    RunThree(Apply(Apply(n, a, v), b, v), c, c, c, v);
    FirstStep(n, v, a, [b, c, c, c]);
    FirstStep(Apply(n, a, v), v, b, [c, c, c]);
    assert [a] + [b, c, c, c] == [a, b, c, c, c] && [b] + [c, c, c] == [b, c, c, c];
  }

  lemma RunThree<D>(n: Net<D>, a: Action<D>, b: Action<D>, c: Action<D>, v: string)
    ensures Run(n, [a, b, c], v) == Apply(Apply(Apply(n, a, v), b, v), c, v)
  {
    FirstStep(n, v, a, [b, c]);
    FirstStep(Apply(n, a, v), v, b, [c]);
    FirstStep(Apply(Apply(n, a, v), b, v), v, c, []);
    assert [a] + [b, c] == [a, b, c] && [b] + [c] == [b, c] && [c] + [] == [c];
  }

  lemma AnnounceIsSilent(inputs: seq<string>, v: string)
    requires |inputs| <= 2
    ensures Silent(Pair(inputs), Announce(), v)
  {
    var emit: Action<int> := Emit("s", [Update(1)]);
    var rest: seq<Action<int>> := [Command("s"), Step("s"), Step("s"), Step("s")];
    assert Announce() == [emit] + rest;
    NoEmitIsSilent(Apply(Pair(inputs), emit, v), v, rest);
    SilentFirst(Pair(inputs), v, emit, rest);
  }

  /** c lists s twice. It reads the message and the checkpoint on one subscription and then the
      message on the other: no node has published behind its checkpoint, and an
      assertion fires. */
  lemma ListedTwiceRaises(v: string)
    ensures var net := Pair(["s", "s"]);
            var actions := Announce() + [Deliver("c", 0, []), Deliver("c", 0, []), Deliver("c", 1, [])];
            && Started(net) && Acyclic(InputsOf(net))
            && Silent(net, actions, v) && Run(net, actions, v).raised == 1
  {
    var twice := ["s", "s"];
    var net := Pair(twice);
    var first, second: Action<int> := Deliver("c", 0, []), Deliver("c", 1, []);
    PairIsValid(twice);
    AfterAnnouncing(twice, v);
    AnnounceIsSilent(twice, v);
    RunConcat(net, Announce(), [first, first, second], v);
    NoEmitIsSilent(AnnouncedPair(twice, v), v, [first, first, second]);
    SilentConcat(net, v, Announce(), [first, first, second]);
    OvertakenOnce(v);
  }

  lemma OvertakenOnce(v: string)
    ensures Run(AnnouncedPair(["s", "s"], v), [Deliver("c", 0, []), Deliver("c", 0, []), Deliver("c", 1, [])],
            v).raised == 1
  {
    var first, second: Action<int> := Deliver("c", 0, []), Deliver("c", 1, []);
    var n0 := AnnouncedPair(["s", "s"], v);
    var n1 := Apply(n0, first, v);
    ReadFirst(v);
    var n2 := Apply(n1, first, v);
    ReadSecond(n1, v);
    ReadThird(n2, v);
    RunThree(n0, first, first, second, v);
  }

  /** c with both subscriptions to an announced s, having read so far on each. */
  ghost predicate Reading(n: Net<int>, v: string, state: FtState, noted: map<string, string>, p0: nat, p1: nat) {
    && n.nodes.Keys == {"s", "c"} && n.nodes["s"] == AnnouncedSource(v) && n.raised == 0
    && n.nodes["c"].node.inputs == ["s", "s"]
    && n.nodes["c"].node.state == state && n.nodes["c"].node.inputsCheckpoint == noted
    && n.pos == map[("c", 0) := p0, ("c", 1) := p1]
  }

  lemma ReadFirst(v: string)
    ensures Reading(Apply(AnnouncedPair(["s", "s"], v), Deliver("c", 0, []), v), v, STARTED, map[], 1, 0)
  {
  }

  lemma ReadSecond(n: Net<int>, v: string)
    requires Reading(n, v, STARTED, map[], 1, 0)
    ensures Reading(Apply(n, Deliver("c", 0, []), v), v, CHECKPOINT, map["s" := v], 2, 0)
  {
  }

  lemma ReadThird(n: Net<int>, v: string)
    requires Reading(n, v, CHECKPOINT, map["s" := v], 2, 0)
    ensures Apply(n, Deliver("c", 1, []), v).raised == 1
  {
  }

  /** A source that publishes once more after its checkpoint is loud: such runs exist. */
  lemma LateEmissionIsLoud(v: string)
    ensures var net := Pair(["s"]);
            Started(net) && AllDistinct(net) && !Silent(net, Announce() + [Emit("s", [Update(2)])], v)
  {
    var net := Pair(["s"]);
    var late: Action<int> := Emit("s", [Update(2)]);
    PairIsStarted(["s"]);
    PairIsDistinct();
    AfterAnnouncing(["s"], v);
    OneMoreIsLoud(v);
    SilentSuffix(net, v, Announce(), [late]);
  }

  lemma PairIsDistinct()
    ensures AllDistinct(Pair(["s"]))
  {
  }

  lemma OneMoreIsLoud(v: string)
    ensures Loud(AnnouncedPair(["s"], v), Emit("s", [Update(2)]))
  {
    var t := AnnouncedPair(["s"], v);
    assert Edge(t, "c", 0) && t.nodes["c"].node.inputs[0] == "s";
    CutIs(t.nodes["s"].node.log, 1);
  }

  lemma {:induction false} SilentSuffix<D>(net: Net<D>, v: string, a: seq<Action<D>>, b: seq<Action<D>>)
    ensures Silent(net, a + b, v) ==> Silent(Run(net, a, v), b, v)
    decreases |a|
  {
    if a == [] {
      assert a + b == b;
    } else {
      assert (a + b)[1..] == a[1..] + b;
      SilentSuffix(Apply(net, a[0], v), v, a[1..], b);
    }
  }
}
