/** How many lists a topic holds: exactly, for any number of messages. */
module TopicStorage {
  import opened KeyNames
  import opened TopicProtocol
  import opened TopicTheorems
  import opened Sets

  // ---------- the order of key names, as collections see it ----------

  /** The last list whose name is a digit shorter than that of list h, or -1. */
  function Stray(h: nat): int {
    if Width(h) > MIN_WIDTH then Pow16(Width(h) - 1) - 1 else -1
  }

  /** A collection during list h leaves that list. */
  predicate Stays(h: nat) {
    Width(h) > MIN_WIDTH && h < Pow16(Width(h)) - 16
  }

  /** During list h a topic holds a third list. */
  predicate ThirdList(h: nat) {
    Width(h) > MIN_WIDTH && Pow16(Width(h) - 1) < h <= Pow16(Width(h)) - 16
  }

  /** What a collection during list h, and the step to the next list, rely on. */
  ghost predicate Fact(name: nat -> string, stray: nat -> int, stays: nat -> bool, h: nat) {
    && stray(h) < h
    && (stays(h) ==> stray(h) >= 0)
    && (stray(h) >= 0 ==> (Less(name(stray(h)), name(h)) <==> !stays(h)))
    && (stray(h) >= 0 && stray(h) == h - 1 ==> stays(h))
    && (Less(name(h), name(h + 1)) <==> stray(h + 1) != h)
    && (stray(h + 1) == stray(h) || (stray(h + 1) == h && !stays(h)))
    && (stays(h + 1) && stray(h + 1) < h ==> stays(h))
  }

  ghost predicate Names(name: nat -> string, stray: nat -> int, stays: nat -> bool) {
    forall h: nat :: Fact(name, stray, stays, h)
  }

  lemma SameWidth(h: nat)
    requires Width(h + 1) == Width(h)
    ensures Stray(h + 1) == Stray(h) && (Stays(h + 1) ==> Stays(h))
  {
  }

  lemma WidthBounds(h: nat)
    ensures h < Pow16(Width(h)) && (Width(h) > MIN_WIDTH ==> Pow16(Width(h) - 1) <= h)
  {
    if Width(h) > MIN_WIDTH {
      DigitsNeeded(h);
    }
  }

  lemma {:induction false} DigitsNeeded(n: nat)
    requires n >= 16
    ensures NumDigits(n) >= 2 && Pow16(NumDigits(n) - 1) <= n
  {
    if n / 16 >= 16 {
      DigitsNeeded(n / 16);
    }
  }

  lemma WidthSteps(h: nat)
    ensures Width(h + 1) == Width(h) || (Width(h + 1) == Width(h) + 1 && h + 1 == Pow16(Width(h)))
  {
    WidthBounds(h);
    NextWidth(h, Width(h));
  }

  lemma NextWidth(h: nat, w: nat)
    requires w >= MIN_WIDTH && h < Pow16(w) && (w > MIN_WIDTH ==> Pow16(w - 1) <= h)
    ensures Width(h + 1) == if h + 1 < Pow16(w) then w else w + 1
  {
    if h + 1 < Pow16(w) {
      WidthIs(h + 1, w);
    } else {
      var p := Pow16(w);
      assert Pow16(w + 1) == 16 * p;
      WidthIs(h + 1, w + 1);
    }
  }

  lemma StrayIsBelow(h: nat)
    ensures Stray(h) < h
    ensures Stray(h) == h - 1 && Stray(h) >= 0 ==> Stays(h)
  {
    WidthBounds(h);
    if Width(h) > MIN_WIDTH {
      var p := Pow16(Width(h) - 1);
      PowMonotone(1, Width(h) - 1);
      assert Pow16(Width(h)) == 16 * p && p >= Pow16(1);
      assert Pow16(1) == 16 * Pow16(0) == 16;
    }
  }

  lemma StrayOrder(topic: string, h: nat)
    requires Stray(h) >= 0
    ensures Less(QueueName(topic, Stray(h)), QueueName(topic, h)) <==> !Stays(h)
  {
    WidthBounds(h);
    QueueOrderWraps(topic, Width(h) - 1, h);
  }

  lemma StraySteps(h: nat)
    ensures Stray(h + 1) == Stray(h) || (Stray(h + 1) == h && !Stays(h))
    ensures Stays(h + 1) && Stray(h + 1) < h ==> Stays(h)
  {
    WidthSteps(h);
    if Width(h + 1) == Width(h) {
      SameWidth(h);
    }
  }

  lemma PreviousOrder(topic: string, h: nat)
    ensures Less(QueueName(topic, h), QueueName(topic, h + 1)) <==> Stray(h + 1) != h
  {
    WidthSteps(h);
    if Width(h + 1) == Width(h) {
      SameWidthOrder(topic, h, h + 1);
      StrayIsBelow(h);
      SameWidth(h);
    } else {
      StrayOrder(topic, h + 1);
      StrayIsBelow(h + 1);
    }
  }

  lemma QueueNamesOrder(topic: string)
    ensures Names((list: nat) => QueueName(topic, list), Stray, Stays)
  {
    var name := (list: nat) => QueueName(topic, list);
    forall h: nat ensures Fact(name, Stray, Stays, h) {
      NameFact(topic, h);
    }
  }

  lemma NameFact(topic: string, h: nat)
    ensures Fact((list: nat) => QueueName(topic, list), Stray, Stays, h)
  {
    StrayIsBelow(h);
    if Stray(h) >= 0 {
      StrayOrder(topic, h);
    }
    StraySteps(h);
    PreviousOrder(topic, h);
  }

  // ---------- invariant ----------

  ghost predicate Present<M>(s: State<M>, list: int) {
    list >= 0 && s.name(list) in s.queues
  }

  /** The lists that a topic may hold and, but for the current one, does hold. */
  ghost predicate LiveInv<M>(s: State<M>, stray: nat -> int, stays: nat -> bool) {
    var cur := s.num / LIST_SIZE;
    && Names(s.name, stray, stays)
    && (if Collected(s) then
          && (forall list: nat :: Present(s, list) ==> list == cur || (list == stray(cur) && stays(cur)))
          && (stays(cur) ==> Present(s, stray(cur)))
        else
          && (forall list: nat :: Present(s, list) ==>
                list == cur || (cur >= 1 && (list == cur - 1 || (list == stray(cur) && stays(cur - 1)))))
          && (cur >= 1 ==> Present(s, cur - 1))
          && (cur >= 1 && 0 <= stray(cur) < cur - 1 && stays(cur - 1) ==> Present(s, stray(cur))))
  }

  lemma LiveAfterDelete<M>(s: State<M>, list: int)
    requires PubInv(s) && s.pub.Deleting?
    ensures Present(Apply(s, GcDelete), list) <==> Present(s, list) && !Less(s.name(list), s.name(s.num / LIST_SIZE))
  {
  }

  lemma DeleteKeepsLive<M>(s: State<M>, stray: nat -> int, stays: nat -> bool)
    requires PubInv(s) && LiveInv(s, stray, stays) && s.pub.Deleting?
    ensures LiveInv(Apply(s, GcDelete), stray, stays)
  {
    var t := Apply(s, GcDelete);
    var cur := s.num / LIST_SIZE;
    assert Fact(s.name, stray, stays, cur);
    if cur >= 1 {
      assert Fact(s.name, stray, stays, cur - 1);
    }
    forall list: nat | Present(t, list) ensures list == cur || (list == stray(cur) && stays(cur)) {
      LiveAfterDelete(s, list);
    }
    if stays(cur) {
      LiveAfterDelete(s, stray(cur));
    }
  }

  lemma PushKeepsLive<M>(s: State<M>, stray: nat -> int, stays: nat -> bool)
    requires Delivery(s) && LiveInv(s, stray, stays) && s.pub.Pushing?
    ensures LiveInv(Apply(s, Push), stray, stays)
  {
    var t := Apply(s, Push);
    forall list: nat ensures Present(t, list) <==> Present(s, list) || list == s.num / LIST_SIZE {
    }
  }

  lemma BumpKeepsLive<M>(s: State<M>, stray: nat -> int, stays: nat -> bool)
    requires Delivery(s) && LiveInv(s, stray, stays) && s.pub.Pushed?
    ensures LiveInv(Apply(s, Bump), stray, stays)
  {
    var t := Apply(s, Bump);
    forall list ensures Present(t, list) <==> Present(s, list) {
    }
    if LastOfList(s.num) {
      assert Needed(s, s.num / LIST_SIZE);
      NextList(s, t, stray, stays);
    } else {
      assert t.num / LIST_SIZE == s.num / LIST_SIZE;
    }
  }

  lemma NextList<M>(s: State<M>, t: State<M>, stray: nat -> int, stays: nat -> bool)
    requires LiveInv(s, stray, stays) && Collected(s) && Present(s, s.num / LIST_SIZE)
    requires t.name == s.name && t.num == s.num + 1 && !Collected(t)
    requires forall list :: Present(t, list) <==> Present(s, list)
    ensures LiveInv(t, stray, stays)
  {
    var cur := s.num / LIST_SIZE;
    assert t.num / LIST_SIZE == cur + 1;
    assert Fact(s.name, stray, stays, cur);
  }

  lemma OtherKeepsLive<M>(s: State<M>, a: Action<M>, stray: nat -> int, stays: nat -> bool)
    requires PubInv(s) && LiveInv(s, stray, stays) && !a.GcDelete? && !a.Push? && !a.Bump?
    ensures LiveInv(Apply(s, a), stray, stays)
  {
    var t := Apply(s, a);
    assert t.num == s.num && t.queues == s.queues && t.name == s.name;
    assert Collected(t) == Collected(s);
    assert forall list :: Present(t, list) <==> Present(s, list);
  }

  lemma ApplyKeepsLive<M>(s: State<M>, a: Action<M>, stray: nat -> int, stays: nat -> bool)
    requires Delivery(s) && LiveInv(s, stray, stays)
    ensures LiveInv(Apply(s, a), stray, stays)
  {
    match a {
      case GcDelete => if s.pub.Deleting? { DeleteKeepsLive(s, stray, stays); }
      case Push => if s.pub.Pushing? { PushKeepsLive(s, stray, stays); }
      case Bump => if s.pub.Pushed? { BumpKeepsLive(s, stray, stays); }
      case _ => OtherKeepsLive(s, a, stray, stays);
    }
  }

  lemma {:induction false} RunKeepsLive<M>(s: State<M>, actions: seq<Action<M>>, stray: nat -> int, stays: nat -> bool)
    requires Delivery(s) && LiveInv(s, stray, stays)
    ensures Delivery(Run(s, actions)) && LiveInv(Run(s, actions), stray, stays)
    decreases |actions|
  {
    if actions != [] {
      ApplyKeepsDelivery(s, actions[0]);
      ApplyKeepsLive(s, actions[0], stray, stays);
      RunKeepsLive(Apply(s, actions[0]), actions[1..], stray, stays);
    }
  }

  // ---------- the number of lists ----------

  ghost predicate Third(h: nat, stray: nat -> int, stays: nat -> bool) {
    h >= 1 && 0 <= stray(h) < h - 1 && stays(h - 1)
  }

  /** Names of the lists that may be there. */
  ghost function Expected<M>(s: State<M>, stray: nat -> int, stays: nat -> bool): set<string> {
    var cur := s.num / LIST_SIZE;
    {s.name(cur)}
    + (if cur >= 1 then {s.name(cur - 1)} else {})
    + (if Third(cur, stray, stays) then {s.name(stray(cur))} else {})
  }

  lemma QueuesAreLive<M>(s: State<M>, q: string) returns (list: nat)
    requires Delivery(s) && q in s.queues
    ensures q == s.name(list) && Present(s, list) && list <= s.num / LIST_SIZE
  {
    list :| IsChunk(s.name, s.published, q, s.queues[q], list);
  }

  lemma AtMost<M>(s: State<M>, stray: nat -> int, stays: nat -> bool)
    requires Delivery(s) && LiveInv(s, stray, stays) && !Collected(s)
    ensures s.queues.Keys <= Expected(s, stray, stays)
  {
    forall q | q in s.queues ensures q in Expected(s, stray, stays) {
      var list := QueuesAreLive(s, q);
    }
  }

  lemma AtMostCollected<M>(s: State<M>, stray: nat -> int, stays: nat -> bool)
    requires Delivery(s) && LiveInv(s, stray, stays) && Collected(s)
    ensures |s.queues| <= 2
  {
    var cur := s.num / LIST_SIZE;
    var names := {s.name(cur), if stray(cur) >= 0 then s.name(stray(cur)) else s.name(cur)};
    forall q | q in s.queues ensures q in names {
      var list := QueuesAreLive(s, q);
    }
    SubsetCard(s.queues.Keys, names);
  }

  lemma ExpectedCard<M>(s: State<M>, stray: nat -> int, stays: nat -> bool)
    requires Injective(s.name)
    ensures var cur := s.num / LIST_SIZE;
            |Expected(s, stray, stays)| == if cur == 0 then 1 else if Third(cur, stray, stays) then 3 else 2
  {
    var cur := s.num / LIST_SIZE;
    if cur >= 1 {
      assert s.name(cur) != s.name(cur - 1);
      if Third(cur, stray, stays) {
        assert s.name(stray(cur)) != s.name(cur) && s.name(stray(cur)) != s.name(cur - 1);
        assert Expected(s, stray, stays) == {s.name(cur), s.name(cur - 1), s.name(stray(cur))};
      } else {
        assert Expected(s, stray, stays) == {s.name(cur), s.name(cur - 1)};
      }
    } else {
      assert Expected(s, stray, stays) == {s.name(cur)};
    }
  }

  lemma AllThere<M>(s: State<M>, stray: nat -> int, stays: nat -> bool)
    requires Delivery(s) && LiveInv(s, stray, stays) && 0 < s.num % LIST_SIZE < LIST_SIZE - 1
    ensures s.queues.Keys == Expected(s, stray, stays)
  {
    assert Needed(s, s.num / LIST_SIZE);
    AtMost(s, stray, stays);
  }

  lemma ThirdIs(h: nat)
    ensures Third(h, Stray, Stays) <==> ThirdList(h)
  {
    if h >= 1 && Width(h) > MIN_WIDTH {
      WidthBounds(h);
      WidthSteps(h - 1);
      ThirdAt(h, Width(h), Pow16(Width(h) - 1));
    }
  }

  lemma ThirdAt(h: nat, w: nat, p: nat)
    requires h >= p >= 1 && Width(h) == w > MIN_WIDTH && p == Pow16(w - 1)
    requires Width(h - 1) == w || h == p
    ensures Third(h, Stray, Stays) <==> p < h <= Pow16(w) - 16
  {
    if h > p {
      assert Stays(h - 1) <==> h - 1 < Pow16(w) - 16;
    }
  }

  lemma RunHasLists<M>(topic: string, n: nat, actions: seq<Action<M>>)
    ensures var s := Run(Init<M>(topic, n), actions); Delivery(s) && LiveInv(s, Stray, Stays)
  {
    InitInv<M>(topic, n);
    QueueNamesOrder(topic);
    RunKeepsLive(Init<M>(topic, n), actions, Stray, Stays);
  }

  /** At every moment of every run: at most three lists, and at most two except during the lists
      from 16^w + 1 to 16^(w+1) - 16, for some w of 13 or more. */
  lemma ListsBound<M>(topic: string, n: nat, actions: seq<Action<M>>)
    ensures var s := Run(Init<M>(topic, n), actions);
            |s.queues| <= if ThirdList(s.num / LIST_SIZE) then 3 else 2
  {
    RunHasLists<M>(topic, n, actions);
    var s := Run(Init<M>(topic, n), actions);
    if Collected(s) {
      AtMostCollected(s, Stray, Stays);
    } else {
      AtMost(s, Stray, Stays);
      ExpectedCard(s, Stray, Stays);
      SubsetCard(s.queues.Keys, Expected(s, Stray, Stays));
      ThirdIs(s.num / LIST_SIZE);
    }
  }

  /** Inside a list the number is exact. The third list is the last one whose name is a
      digit shorter: it sorts above the names of those lists. */
  lemma ListsExactly<M>(topic: string, n: nat, actions: seq<Action<M>>)
    requires 0 < Run(Init<M>(topic, n), actions).num % LIST_SIZE < LIST_SIZE - 1
    ensures var s := Run(Init<M>(topic, n), actions);
            |s.queues| == if s.num < LIST_SIZE then 1 else if ThirdList(s.num / LIST_SIZE) then 3 else 2
  {
    RunHasLists<M>(topic, n, actions);
    var s := Run(Init<M>(topic, n), actions);
    AllThere(s, Stray, Stays);
    ExpectedCard(s, Stray, Stays);
    ThirdIs(s.num / LIST_SIZE);
  }
}
