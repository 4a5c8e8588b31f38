/** One topic: a publisher and its registered subscribers share a log that Redis
    holds as lists of 4096 messages. Every access to Redis is one atomic action;
    actions of the publisher and of the subscribers interleave freely. */
module TopicProtocol {
  import opened Arithmetic
  import opened KeyNames

  const LIST_SIZE := 4096
  const BATCH := 128
  const WINDOW := 1024

  /** Where the publisher is inside `publish`. */
  datatype Publisher<M> =
    | Idle
    | Checking(msg: M)                          // about to read the subscribers' counters
    | Collecting(msg: M, lagger: nat)           // about to list the queue keys
    | Deleting(msg: M, doomed: set<string>)     // about to delete the keys found
    | Pushing(msg: M)                           // about to append to the list
    | Pushed                                    // appended, num_publish not yet incremented

  /** Where a subscriber is inside its loop; counter is its local variable. */
  datatype Phase<M> = Ready | Delivering(batch: seq<M>, next: nat) | Storing
  datatype Subscriber<M> = Subscriber(counter: nat, phase: Phase<M>, delivered: seq<M>)

  datatype State<M> = State(
    name: nat -> string,             // Redis key of each list
    num: nat,                        // num_publish
    pub: Publisher<M>,
    published: seq<M>,               // every message appended so far
    queues: map<string, seq<M>>,     // the Redis lists of the topic
    counters: seq<nat>,              // the Redis list of subscribers' counters
    subs: seq<Subscriber<M>>)

  datatype Action<M> =
    | Publish(msg: M) | ReadLagger | GcKeys | GcDelete | Push | Bump
    | Read(i: nat) | Deliver(i: nat) | Store(i: nat)

  function Min(a: int, b: int): int { if a < b then a else b }

  function MinOf(c: seq<nat>): (m: nat)
    requires c != []
    ensures m in c && forall k :: 0 <= k < |c| ==> m <= c[k]
  {
    if |c| == 1 then c[0] else
    var m := MinOf(c[1..]);
    assert forall k :: 1 <= k < |c| ==> c[k] == c[1..][k - 1];
    if c[0] < m then c[0] else m
  }

  function Lagger(num: nat, counters: seq<nat>): nat {
    if counters == [] then num else MinOf(counters)
  }

  function Doomed<M>(name: nat -> string, queues: map<string, seq<M>>, lagger: nat): set<string> {
    set q | q in queues && Less(q, name(lagger / LIST_SIZE))
  }

  function Append<M>(queues: map<string, seq<M>>, key: string, msg: M): map<string, seq<M>> {
    queues[key := (if key in queues then queues[key] else []) + [msg]]
  }

  /** LRANGE: both ends included, clipped to the list, empty for a missing key. */
  function LRange<M>(queues: map<string, seq<M>>, key: string, base: nat, top: nat): seq<M> {
    if key !in queues || base > top || base >= |queues[key]| then []
    else queues[key][base..Min(top + 1, |queues[key]|)]
  }

  function NextBatch<M>(name: nat -> string, queues: map<string, seq<M>>, counter: nat): seq<M> {
    var base := counter % LIST_SIZE;
    LRange(queues, name(counter / LIST_SIZE), base, Min(base + BATCH - 1, LIST_SIZE - 1))
  }

  predicate ChecksWindow(num: nat) {
    num % LIST_SIZE % BATCH == BATCH - 1
  }

  predicate LastOfList(num: nat) {
    num % LIST_SIZE == LIST_SIZE - 1
  }

  function Init<M>(topic: string, n: nat): State<M> {
    State((list: nat) => QueueName(topic, list), 0, Idle, [], map[],
          seq(n, _ => 0), seq(n, _ => Subscriber(0, Ready, [])))
  }

  function SubAction<M>(s: State<M>, i: nat): State<M>
    requires i < |s.subs| && i < |s.counters|
  {
    var u := s.subs[i];
    match u.phase
    case Ready =>
      var batch := NextBatch(s.name, s.queues, u.counter);
      if |batch| == 0 then s else s.(subs := s.subs[i := u.(phase := Delivering(batch, 0))])
    case Delivering(batch, next) =>
      if next >= |batch| then s else
      var v := u.(delivered := u.delivered + [batch[next]]);
      s.(subs := s.subs[i :=
        if next + 1 < |batch| then v.(phase := Delivering(batch, next + 1))
        else v.(phase := Storing, counter := u.counter + |batch|)])
    case Storing =>
      s.(counters := s.counters[i := u.counter], subs := s.subs[i := u.(phase := Ready)])
  }

  /** One atomic action; an action that is not enabled changes nothing. */
  function Apply<M>(s: State<M>, a: Action<M>): State<M> {
    match a
    case Publish(m) =>
      if !s.pub.Idle? then s
      else if ChecksWindow(s.num) then s.(pub := Checking(m))
      else s.(pub := Pushing(m))
    case ReadLagger =>
      if !s.pub.Checking? then s else
      var lagger := Lagger(s.num, s.counters);
      if s.num - lagger > WINDOW then s
      else if LastOfList(s.num) then s.(pub := Collecting(s.pub.msg, lagger))
      else s.(pub := Pushing(s.pub.msg))
    case GcKeys =>
      if !s.pub.Collecting? then s
      else s.(pub := Deleting(s.pub.msg, Doomed(s.name, s.queues, s.pub.lagger)))
    case GcDelete =>
      if !s.pub.Deleting? then s
      else s.(queues := s.queues - s.pub.doomed, pub := Pushing(s.pub.msg))
    case Push =>
      if !s.pub.Pushing? then s
      else s.(queues := Append(s.queues, s.name(s.num / LIST_SIZE), s.pub.msg),
              published := s.published + [s.pub.msg], pub := Pushed)
    case Bump =>
      if !s.pub.Pushed? then s else s.(num := s.num + 1, pub := Idle)
    case Read(i) =>
      if i < |s.subs| && i < |s.counters| && s.subs[i].phase.Ready? then SubAction(s, i) else s
    case Deliver(i) =>
      if i < |s.subs| && i < |s.counters| && s.subs[i].phase.Delivering? then SubAction(s, i) else s
    case Store(i) =>
      if i < |s.subs| && i < |s.counters| && s.subs[i].phase.Storing? then SubAction(s, i) else s
  }

  function Run<M>(s: State<M>, actions: seq<Action<M>>): State<M>
    decreases |actions|
  {
    if actions == [] then s else Run(Apply(s, actions[0]), actions[1..])
  }

  // ---------- invariant ----------

  /** The collection at the end of the current list is over. */
  ghost predicate Collected<M>(s: State<M>) {
    LastOfList(s.num) && (s.pub.Pushing? || s.pub.Pushed?)
  }

  function Chunk<M>(published: seq<M>, list: nat): seq<M> {
    if LIST_SIZE * list >= |published| then []
    else published[LIST_SIZE * list..Min(LIST_SIZE * list + LIST_SIZE, |published|)]
  }

  ghost predicate PubInv<M>(s: State<M>) {
    && |s.published| == s.num + (if s.pub.Pushed? then 1 else 0)
    && (s.pub.Checking? || s.pub.Collecting? || s.pub.Deleting? ==> ChecksWindow(s.num))
    && (s.pub.Collecting? || s.pub.Deleting? ==> LastOfList(s.num))
    && (s.pub.Collecting? ==> s.pub.lagger / LIST_SIZE == s.num / LIST_SIZE)
    && (s.pub.Deleting? ==> s.pub.doomed == Doomed(s.name, s.queues, s.num))
    && (s.pub.Collecting? || s.pub.Deleting? ==>
        forall i :: 0 <= i < |s.counters| ==> s.num / LIST_SIZE <= s.counters[i] / LIST_SIZE)
  }

  ghost predicate SubInv<M>(published: seq<M>, stored: nat, u: Subscriber<M>) {
    && stored <= u.counter <= |published|
    && match u.phase
       case Ready => stored == u.counter && u.delivered == published[..u.counter]
       case Delivering(batch, next) =>
         && stored == u.counter
         && next < |batch|
         && u.counter + |batch| <= |published|
         && batch == published[u.counter..u.counter + |batch|]
         && u.delivered == published[..u.counter + next]
       case Storing => stored < u.counter && u.delivered == published[..u.counter]
  }

  ghost predicate SubsInv<M>(s: State<M>) {
    && |s.counters| == |s.subs|
    && (forall i :: 0 <= i < |s.subs| ==> SubInv(s.published, s.counters[i], s.subs[i]))
  }

  /** Lists that some subscriber has still to read, or that the publisher is filling. */
  ghost predicate Needed<M>(s: State<M>, list: nat) {
    && LIST_SIZE * list < |s.published|
    && (list == s.num / LIST_SIZE || exists i :: 0 <= i < |s.counters| && s.counters[i] / LIST_SIZE <= list)
  }

  ghost predicate IsChunk<M>(name: nat -> string, p: seq<M>, q: string, content: seq<M>, list: nat) {
    q == name(list) && LIST_SIZE * list < |p| && content == Chunk(p, list)
  }

  /** Every list is the stretch of the log that its name says. */
  ghost predicate Chunked<M>(name: nat -> string, p: seq<M>, queues: map<string, seq<M>>) {
    forall q :: q in queues ==> exists list: nat :: IsChunk(name, p, q, queues[q], list)
  }

  ghost predicate Injective(name: nat -> string) {
    forall a: nat, b: nat :: name(a) == name(b) ==> a == b
  }

  ghost predicate QueueInv<M>(s: State<M>) {
    && Injective(s.name)
    && Chunked(s.name, s.published, s.queues)
    && (forall list: nat :: Needed(s, list) ==> s.name(list) in s.queues)
  }

  /** The window: a check passed at the end of every 128 messages. */
  ghost predicate WindowInv<M>(s: State<M>) {
    forall i :: 0 <= i < |s.counters| ==>
      && s.num - s.counters[i] <= WINDOW + 1 + s.num % BATCH
      && (ChecksWindow(s.num) && !s.pub.Idle? && !s.pub.Checking? ==> s.num - s.counters[i] <= WINDOW)
  }

  /** What delivery rests on; the window is not part of it. */
  ghost predicate Delivery<M>(s: State<M>) {
    PubInv(s) && SubsInv(s) && QueueInv(s)
  }

  ghost predicate Inv<M>(s: State<M>) {
    Delivery(s) && WindowInv(s)
  }

  lemma InitInv<M>(topic: string, n: nat)
    ensures Inv<M>(Init(topic, n))
  {
    forall a: nat, b: nat | QueueName(topic, a) == QueueName(topic, b) ensures a == b {
      QueueNameInjective(topic, a, b);
    }
  }

  /** Appending to the current list's chunk is the current chunk of the longer log. */
  lemma ChunkGrows<M>(p: seq<M>, m: M)
    ensures var cur := |p| / LIST_SIZE;
            && Chunk(p + [m], cur) == Chunk(p, cur) + [m]
            && forall list: nat :: list < cur ==> Chunk(p + [m], list) == Chunk(p, list)
  {
    var cur := |p| / LIST_SIZE;
    assert LIST_SIZE * cur <= |p| < LIST_SIZE * cur + LIST_SIZE;
    forall list: nat | list < cur ensures Chunk(p + [m], list) == Chunk(p, list) {
      assert LIST_SIZE * list + LIST_SIZE <= |p|;
    }
  }

  lemma ListContent<M>(name: nat -> string, p: seq<M>, queues: map<string, seq<M>>, list: nat)
    requires Injective(name) && Chunked(name, p, queues) && name(list) in queues
    ensures LIST_SIZE * list < |p| && queues[name(list)] == Chunk(p, list)
  {
    var q := name(list);
    var l: nat :| IsChunk(name, p, q, queues[q], l);
  }

  lemma AppendKeepsChunked<M>(name: nat -> string, p: seq<M>, queues: map<string, seq<M>>, msg: M)
    requires Injective(name) && Chunked(name, p, queues)
    requires |p| % LIST_SIZE != 0 ==> name(|p| / LIST_SIZE) in queues
    ensures Chunked(name, p + [msg], Append(queues, name(|p| / LIST_SIZE), msg))
  {
    var cur := |p| / LIST_SIZE;
    var key := name(cur);
    var queues' := Append(queues, key, msg);
    ChunkGrows(p, msg);
    CurrentListContent(name, p, queues);
    assert IsChunk(name, p + [msg], key, queues'[key], cur);
    forall q | q in queues' && q != key
      ensures exists list: nat :: IsChunk(name, p + [msg], q, queues'[q], list)
    {
      var list: nat :| IsChunk(name, p, q, queues[q], list);
      OtherListStays(name, p, q, queues[q], list, msg);
    }
  }

  lemma OtherListStays<M>(name: nat -> string, p: seq<M>, q: string, content: seq<M>, list: nat, msg: M)
    requires IsChunk(name, p, q, content, list) && q != name(|p| / LIST_SIZE)
    ensures IsChunk(name, p + [msg], q, content, list)
  {
    ChunkGrows(p, msg);
    assert list < |p| / LIST_SIZE;
  }

  lemma CurrentListContent<M>(name: nat -> string, p: seq<M>, queues: map<string, seq<M>>)
    requires Injective(name) && Chunked(name, p, queues)
    requires |p| % LIST_SIZE != 0 ==> name(|p| / LIST_SIZE) in queues
    ensures var cur := |p| / LIST_SIZE;
            (if name(cur) in queues then queues[name(cur)] else []) == Chunk(p, cur)
  {
    if name(|p| / LIST_SIZE) in queues {
      ListContent(name, p, queues, |p| / LIST_SIZE);
    }
  }

  lemma PushKeepsQueues<M>(s: State<M>)
    requires PubInv(s) && QueueInv(s) && s.pub.Pushing?
    ensures QueueInv(Apply(s, Push))
  {
    var cur := s.num / LIST_SIZE;
    var t := Apply(s, Push);
    if s.num % LIST_SIZE != 0 {
      assert Needed(s, cur);
    }
    AppendKeepsChunked(s.name, s.published, s.queues, s.pub.msg);
    assert Chunked(t.name, t.published, t.queues);
    forall list: nat | Needed(t, list) ensures s.name(list) in t.queues {
      NeededBeforePush(s, list);
    }
  }

  lemma NeededBeforePush<M>(s: State<M>, list: nat)
    requires PubInv(s) && s.pub.Pushing? && Needed(Apply(s, Push), list)
    ensures list == s.num / LIST_SIZE || Needed(s, list)
  {
  }

  lemma PushKeepsDelivery<M>(s: State<M>)
    requires Delivery(s) && s.pub.Pushing?
    ensures Delivery(Apply(s, Push))
  {
    PushKeepsQueues(s);
    var t := Apply(s, Push);
    forall i | 0 <= i < |t.subs| ensures SubInv(t.published, t.counters[i], t.subs[i]) {
      PublishedGrows(s.published, t.published, s.counters[i], s.subs[i]);
    }
  }

  lemma PublishedGrows<M>(p: seq<M>, p': seq<M>, stored: nat, u: Subscriber<M>)
    requires SubInv(p, stored, u) && |p| <= |p'| && p == p'[..|p|]
    ensures SubInv(p', stored, u)
  {
    assert forall k :: 0 <= k <= |p| ==> p[..k] == p'[..k];
    if u.phase.Delivering? {
      assert p[u.counter..u.counter + |u.phase.batch|] == p'[u.counter..u.counter + |u.phase.batch|];
    }
  }

  lemma BumpKeepsDelivery<M>(s: State<M>)
    requires Delivery(s) && s.pub.Pushed?
    ensures Delivery(Apply(s, Bump))
  {
    var t := Apply(s, Bump);
    forall list: nat | Needed(t, list) ensures Needed(s, list) {
    }
    assert Chunked(t.name, t.published, t.queues);
  }

  /** What a collection deletes: only lists below the one every subscriber reads next. */
  lemma CollectionIsSafe<M>(s: State<M>, q: string, i: nat)
    requires Delivery(s) && s.pub.Deleting? && q in s.queues && q in s.pub.doomed && i < |s.subs|
    ensures exists list: nat ::
      && q == s.name(list)
      && list < s.counters[i] / LIST_SIZE <= s.subs[i].counter / LIST_SIZE
  {
    var list: nat :| IsChunk(s.name, s.published, q, s.queues[q], list);
    if list == s.num / LIST_SIZE {
      LessIrreflexive(q);
      assert false;
    }
    assert SubInv(s.published, s.counters[i], s.subs[i]);
  }

  lemma GcDeleteKeepsDelivery<M>(s: State<M>)
    requires Delivery(s) && s.pub.Deleting?
    ensures Delivery(Apply(s, GcDelete))
  {
    var t := Apply(s, GcDelete);
    assert forall q :: q in t.queues ==> t.queues[q] == s.queues[q];
    forall list: nat | Needed(t, list) ensures s.name(list) in t.queues {
      assert Needed(s, list);
      assert list == s.num / LIST_SIZE;
      LessIrreflexive(s.name(list));
    }
  }

  lemma ReadLaggerKeepsDelivery<M>(s: State<M>)
    requires Delivery(s) && s.pub.Checking?
    ensures Delivery(Apply(s, ReadLagger))
  {
    var t := Apply(s, ReadLagger);
    forall i | 0 <= i < |s.subs| ensures s.counters[i] <= s.num {
      assert SubInv(s.published, s.counters[i], s.subs[i]);
    }
    forall list: nat | Needed(t, list) ensures Needed(s, list) {
    }
  }

  /** Reading inside a list's chunk reads the log from the same place. */
  lemma ChunkSlice<M>(p: seq<M>, c: nat)
    requires c <= |p|
    ensures var list, base := c / LIST_SIZE, c % LIST_SIZE;
            var top := Min(base + BATCH - 1, LIST_SIZE - 1);
            var chunk := Chunk(p, list);
            && base <= |chunk|
            && (base == |chunk| <==> c == |p|)
            && (base < |chunk| ==>
                && base < Min(top + 1, |chunk|)
                && c + Min(top + 1, |chunk|) - base <= |p|
                && chunk[base..Min(top + 1, |chunk|)] == p[c..c + Min(top + 1, |chunk|) - base])
  {
    var list, base := c / LIST_SIZE, c % LIST_SIZE;
    var chunk := Chunk(p, list);
    assert c == LIST_SIZE * list + base;
    if base < |chunk| {
      var end := Min(Min(base + BATCH - 1, LIST_SIZE - 1) + 1, |chunk|);
      SliceOfSlice(p, LIST_SIZE * list, LIST_SIZE * list + |chunk|, base, end);
    }
  }

  lemma SliceOfSlice<M>(p: seq<M>, a: nat, b: nat, i: nat, j: nat)
    requires a <= b <= |p| && i <= j <= b - a
    ensures p[a..b][i..j] == p[a + i..a + j]
  {
    var s, t := p[a..b][i..j], p[a + i..a + j];
    assert |s| == |t|;
    assert forall k :: 0 <= k < |s| ==> s[k] == t[k];
  }

  /** A batch is exactly the next stretch of the log, empty only at its end,
      and never reaches into the following list. */
  lemma BatchIsNextStretch<M>(name: nat -> string, p: seq<M>, queues: map<string, seq<M>>, c: nat)
    requires Injective(name) && Chunked(name, p, queues) && c <= |p|
    requires c < |p| ==> name(c / LIST_SIZE) in queues
    ensures var batch := NextBatch(name, queues, c);
            && c + |batch| <= |p|
            && batch == p[c..c + |batch|]
            && (|batch| == 0 <==> c == |p|)
            && |batch| <= BATCH
            && c % LIST_SIZE + |batch| <= LIST_SIZE
  {
    ChunkSlice(p, c);
    if name(c / LIST_SIZE) in queues {
      ListContent(name, p, queues, c / LIST_SIZE);
    }
  }

  /** The list a subscriber reads next is there as long as it has something to read. */
  lemma NextListIsLive<M>(s: State<M>, i: nat)
    requires QueueInv(s) && SubsInv(s) && i < |s.subs|
    requires !s.subs[i].phase.Storing? && s.subs[i].counter < |s.published|
    ensures s.name(s.subs[i].counter / LIST_SIZE) in s.queues
  {
    assert SubInv(s.published, s.counters[i], s.subs[i]);
    assert Needed(s, s.subs[i].counter / LIST_SIZE);
  }

  lemma SubActionKeepsSubs<M>(s: State<M>, i: nat)
    requires Delivery(s) && i < |s.subs|
    ensures var t := SubAction(s, i);
            && |t.counters| == |s.counters| && |t.subs| == |s.subs|
            && t == s.(counters := t.counters, subs := t.subs)
            && (forall k :: 0 <= k < |t.counters| ==> s.counters[k] <= t.counters[k])
            && SubsInv(t)
  {
    var t := SubAction(s, i);
    var u := s.subs[i];
    assert SubInv(s.published, s.counters[i], u);
    match u.phase {
      case Ready =>
        if u.counter < |s.published| {
          NextListIsLive(s, i);
        }
        BatchIsNextStretch(s.name, s.published, s.queues, u.counter);
      case Delivering(batch, next) =>
        assert batch[next] == s.published[u.counter + next];
        assert s.published[..u.counter + next] + [batch[next]] == s.published[..u.counter + next + 1];
      case Storing =>
    }
    assert SubInv(t.published, t.counters[i], t.subs[i]);
  }

  lemma SubActionKeepsDelivery<M>(s: State<M>, i: nat)
    requires Delivery(s) && i < |s.subs|
    ensures Delivery(SubAction(s, i))
  {
    SubActionKeepsSubs(s, i);
    CountersGrow(s, SubAction(s, i));
  }

  /** Counters only move forward, so lists can only stop being needed. */
  lemma CountersGrow<M>(s: State<M>, t: State<M>)
    requires PubInv(s) && QueueInv(s)
    requires |t.counters| == |s.counters|
    requires t == s.(counters := t.counters, subs := t.subs)
    requires forall k :: 0 <= k < |t.counters| ==> s.counters[k] <= t.counters[k]
    ensures PubInv(t) && QueueInv(t)
  {
    forall list: nat | Needed(t, list) ensures Needed(s, list) {
      if list != s.num / LIST_SIZE {
        var k :| 0 <= k < |t.counters| && t.counters[k] / LIST_SIZE <= list;
        assert s.counters[k] / LIST_SIZE <= list;
      }
    }
    forall k | 0 <= k < |t.counters| && (t.pub.Collecting? || t.pub.Deleting?)
      ensures s.num / LIST_SIZE <= t.counters[k] / LIST_SIZE
    {
      assert s.counters[k] <= t.counters[k];
    }
  }

  lemma SameLists<M>(s: State<M>, t: State<M>)
    requires QueueInv(s) && t == s.(pub := t.pub)
    ensures QueueInv(t)
  {
    forall list: nat | Needed(t, list) ensures Needed(s, list) {
    }
  }

  lemma ApplyKeepsDelivery<M>(s: State<M>, a: Action<M>)
    requires Delivery(s)
    ensures Delivery(Apply(s, a))
  {
    var t := Apply(s, a);
    if t != s {
      match a {
        case Publish(m) => SameLists(s, t);
        case ReadLagger => ReadLaggerKeepsDelivery(s);
        case GcKeys => SameLists(s, t);
        case GcDelete => GcDeleteKeepsDelivery(s);
        case Push => PushKeepsDelivery(s);
        case Bump => BumpKeepsDelivery(s);
        case Read(i) => SubActionKeepsDelivery(s, i);
        case Deliver(i) => SubActionKeepsDelivery(s, i);
        case Store(i) => SubActionKeepsDelivery(s, i);
      }
    }
  }

  lemma PublisherKeepsWindow<M>(s: State<M>, a: Action<M>)
    requires Inv(s) && !a.Read? && !a.Deliver? && !a.Store?
    ensures WindowInv(Apply(s, a))
  {
    match a {
      case ReadLagger => if s.pub.Checking? { CheckPasses(s); }
      case Bump => if s.pub.Pushed? { BumpKeepsWindow(s); }
      case _ =>
    }
  }

  lemma CheckPasses<M>(s: State<M>)
    requires WindowInv(s) && s.pub.Checking?
    ensures WindowInv(Apply(s, ReadLagger))
  {
    assert forall i :: 0 <= i < |s.counters| ==> Lagger(s.num, s.counters) <= s.counters[i];
  }

  lemma BumpKeepsWindow<M>(s: State<M>)
    requires WindowInv(s) && s.pub.Pushed?
    ensures WindowInv(Apply(s, Bump))
  {
    NextInBatch(s.num);
  }

  lemma NextInBatch(num: nat)
    ensures (num + 1) % BATCH == if ChecksWindow(num) then 0 else num % BATCH + 1
  {
    var k, r := num / BATCH, num % BATCH;
    var q, t := k / 32, k % 32;
    DivUnique(num, LIST_SIZE, q, BATCH * t + r);
    DivUnique(BATCH * t + r, BATCH, t, r);
    if r + 1 < BATCH {
      DivUnique(num + 1, BATCH, k, r + 1);
    } else {
      DivUnique(num + 1, BATCH, k + 1, 0);
    }
  }

  lemma SubActionKeepsWindow<M>(s: State<M>, i: nat)
    requires Inv(s) && i < |s.subs|
    ensures WindowInv(SubAction(s, i))
  {
    SubActionKeepsSubs(s, i);
    WindowNarrows(s, SubAction(s, i));
  }

  lemma WindowNarrows<M>(s: State<M>, t: State<M>)
    requires WindowInv(s) && |t.counters| == |s.counters| && t == s.(counters := t.counters, subs := t.subs)
    requires forall k :: 0 <= k < |t.counters| ==> s.counters[k] <= t.counters[k]
    ensures WindowInv(t)
  {
  }

  lemma ApplyKeepsWindow<M>(s: State<M>, a: Action<M>)
    requires Inv(s)
    ensures WindowInv(Apply(s, a))
  {
    if !a.Read? && !a.Deliver? && !a.Store? {
      PublisherKeepsWindow(s, a);
    } else if a.i < |s.subs| {
      SubActionKeepsWindow(s, a.i);
    }
  }

  lemma ApplyKeepsInv<M>(s: State<M>, a: Action<M>)
    requires Inv(s)
    ensures Inv(Apply(s, a))
  {
    ApplyKeepsDelivery(s, a);
    ApplyKeepsWindow(s, a);
  }

  lemma {:induction false} RunKeepsDelivery<M>(s: State<M>, actions: seq<Action<M>>)
    requires Delivery(s)
    ensures Delivery(Run(s, actions))
    decreases |actions|
  {
    if actions != [] {
      ApplyKeepsDelivery(s, actions[0]);
      RunKeepsDelivery(Apply(s, actions[0]), actions[1..]);
    }
  }

  lemma {:induction false} RunKeepsInv<M>(s: State<M>, actions: seq<Action<M>>)
    requires Inv(s)
    ensures Inv(Run(s, actions))
    decreases |actions|
  {
    if actions != [] {
      ApplyKeepsInv(s, actions[0]);
      RunKeepsInv(Apply(s, actions[0]), actions[1..]);
    }
  }
}
