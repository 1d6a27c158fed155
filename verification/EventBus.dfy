/**
 The in-process event bus as interleaved steps of its threads: a publisher snapshots the
 subscribers, goes through them one at a time, then prunes; others subscribe, take, close and
 vanish in between.
 */
module EventBus {
  import opened Common

  /** The n-th event of its publisher. */
  datatype Event = Event(author: Id, n: nat)

  /** A queue entry: an event, or the sentinel that close leaves. */
  type Entry = Option<Event>

  /** taken and queue together are all that ever entered the queue; promised and lost are history. */
  datatype Subscriber = Subscriber(
    cap: int, queue: seq<Entry>, taken: seq<Entry>, closed: bool, alive: bool, promised: set<Event>, lost: set<Event>)

  /** A publish call in progress: whom it has still to visit, whom it is about to put to, whom it found dead. */
  datatype Publish = Publish(event: Event, todo: seq<Id>, current: Option<Id>, dead: set<Id>)

  datatype Bus = Bus(subs: map<Id, Subscriber>, registered: set<Id>, pubs: map<Id, Publish>, next: map<Id, nat>)

  datatype Step =
    | Subscribe(sub: Id, cap: int)
    | Snapshot(author: Id, order: seq<Id>)
    | Visit(author: Id)
    | Put(author: Id)
    | Prune(author: Id)
    | Take(sub: Id)
    | Close(sub: Id)
    | Sentinel(sub: Id)
    | Vanish(sub: Id)

  predicate Full(s: Subscriber) {
    s.cap > 0 && |s.queue| >= s.cap
  }

  function Stream(s: Subscriber): seq<Entry> {
    s.taken + s.queue
  }

  function Count(b: Bus, author: Id): nat {
    if author in b.next then b.next[author] else 0
  }

  predicate Enabled(b: Bus, step: Step) {
    match step
    case Subscribe(s, _) => s !in b.subs
    case Snapshot(a, order) =>
      a !in b.pubs && (forall i, j | 0 <= i < j < |order| :: order[i] != order[j])
      && (set s | s in order) == b.registered
    case Visit(a) => a in b.pubs && b.pubs[a].current.None? && b.pubs[a].todo != [] && b.pubs[a].todo[0] in b.subs
    case Put(a) => a in b.pubs && b.pubs[a].current.Some? && b.pubs[a].current.value in b.subs
    case Prune(a) => a in b.pubs && b.pubs[a].current.None? && b.pubs[a].todo == []
    case Take(s) => s in b.subs && b.subs[s].queue != []
    case Close(s) => s in b.subs
    case Sentinel(s) => s in b.subs && b.subs[s].closed
    case Vanish(s) => s in b.subs && forall a | a in b.pubs :: b.pubs[a].current != Some(s)
  }

  function Appended(s: Subscriber, e: Event): Subscriber {
    if Full(s) then s.(lost := s.lost + {e}) else s.(queue := s.queue + [Some(e)])
  }

  function Next(b: Bus, step: Step): Bus
    requires Enabled(b, step)
  {
    match step
    case Subscribe(s, cap) =>
      b.(subs := b.subs[s := Subscriber(cap, [], [], false, true, {}, {})], registered := b.registered + {s})
    case Snapshot(a, order) =>
      var e := Event(a, Count(b, a));
      b.(pubs := b.pubs[a := Publish(e, order, None, {})], next := b.next[a := e.n + 1],
         subs := map s | s in b.subs ::
                   if s in b.registered then b.subs[s].(promised := b.subs[s].promised + {e}) else b.subs[s])
    case Visit(a) =>
      var p := b.pubs[a];
      var s := p.todo[0];
      if b.subs[s].closed || !b.subs[s].alive
      then b.(pubs := b.pubs[a := p.(todo := p.todo[1..], dead := p.dead + {s})])
      else b.(pubs := b.pubs[a := p.(todo := p.todo[1..], current := Some(s))])
    case Put(a) =>
      var p := b.pubs[a];
      b.(subs := b.subs[p.current.value := Appended(b.subs[p.current.value], p.event)],
         pubs := b.pubs[a := p.(current := None)])
    case Prune(a) => b.(registered := b.registered - b.pubs[a].dead, pubs := b.pubs - {a})
    case Take(s) =>
      var x := b.subs[s];
      b.(subs := b.subs[s := x.(queue := x.queue[1..], taken := x.taken + [x.queue[0]])])
    case Close(s) => b.(subs := b.subs[s := b.subs[s].(closed := true)])
    case Sentinel(s) =>
      var x := b.subs[s];
      b.(subs := b.subs[s := if Full(x) then x else x.(queue := x.queue + [None])])
    case Vanish(s) => b.(subs := b.subs[s := b.subs[s].(alive := false)])
  }

  // ---------- the invariant ----------

  predicate Bounded(s: Subscriber) {
    s.cap > 0 ==> |s.queue| <= s.cap
  }

  predicate Open(s: Subscriber) {
    s.alive && !s.closed
  }

  /** Publisher a is still to reach subscriber s. */
  predicate Owes(p: Publish, s: Id) {
    s in p.todo || p.current == Some(s)
  }

  /** In what entered the queue, each publisher's events come in the order they were published, none twice. */
  ghost predicate InOrder(stream: seq<Entry>) {
    forall i, j | 0 <= i < j < |stream| && stream[i].Some? && stream[j].Some?
                  && stream[i].value.author == stream[j].value.author ::
      stream[i].value.n < stream[j].value.n
  }

  /** Everything of publisher a in the stream comes before its n-th event. */
  predicate Before(stream: seq<Entry>, a: Id, n: nat) {
    forall i | 0 <= i < |stream| && stream[i].Some? && stream[i].value.author == a :: stream[i].value.n < n
  }

  predicate Received(s: Subscriber, e: Event) {
    Some(e) in Stream(s)
  }

  ghost predicate Pruning(b: Bus) {
    && b.registered <= b.subs.Keys
    && (forall s | s in b.subs && Open(b.subs[s]) :: s in b.registered)
    && (forall a, s | a in b.pubs && s in b.pubs[a].dead :: s in b.subs && !Open(b.subs[s]))
  }

  /** A publish in progress visits each subscriber at most once, and publishes its author's latest event. */
  ghost predicate PublishOk(b: Bus, a: Id)
    requires a in b.pubs
  {
    var p := b.pubs[a];
    && p.event.author == a
    && p.event.n + 1 == Count(b, a)
    && (forall s | Owes(p, s) :: s in b.subs)
    && (forall i, j | 0 <= i < j < |p.todo| :: p.todo[i] != p.todo[j])
    && (p.current.Some? ==> p.current.value !in p.todo)
  }

  ghost predicate StreamOk(b: Bus, s: Id)
    requires s in b.subs
  {
    && Bounded(b.subs[s])
    && InOrder(Stream(b.subs[s]))
    && (forall a :: Before(Stream(b.subs[s]), a, Count(b, a)))
    && (forall a | a in b.pubs && Owes(b.pubs[a], s) :: Before(Stream(b.subs[s]), a, b.pubs[a].event.n))
  }

  /** An open subscriber was promised exactly what it received, lost to a full queue, or is still owed. */
  ghost predicate PromisesOk(b: Bus, s: Id)
    requires s in b.subs
  {
    && (forall e | e in b.subs[s].promised && Open(b.subs[s]) ::
          Received(b.subs[s], e) || e in b.subs[s].lost
          || (e.author in b.pubs && b.pubs[e.author].event == e && Owes(b.pubs[e.author], s)))
    && (forall e | Received(b.subs[s], e) || e in b.subs[s].lost :: e in b.subs[s].promised)
    && (forall a | a in b.pubs && Owes(b.pubs[a], s) :: b.pubs[a].event in b.subs[s].promised)
  }

  ghost predicate Inv(b: Bus) {
    && Pruning(b)
    && (forall a | a in b.pubs :: PublishOk(b, a))
    && (forall s | s in b.subs :: StreamOk(b, s) && PromisesOk(b, s))
  }

  const Empty := Bus(map[], {}, map[], map[])

  lemma EmptyIsOk()
    ensures Inv(Empty)
  {
  }

  lemma AppendKeepsOrder(stream: seq<Entry>, e: Event)
    requires InOrder(stream) && Before(stream, e.author, e.n)
    ensures InOrder(stream + [Some(e)])
    ensures forall a, n: nat :: Before(stream, a, n) && (a == e.author ==> e.n < n) ==> Before(stream + [Some(e)], a, n)
  {
  }

  lemma StepKeepsPruning(b: Bus, step: Step)
    requires Pruning(b) && Enabled(b, step)
    ensures Pruning(Next(b, step))
  {
  }

  lemma SnapshotIsOk(b: Bus, author: Id, order: seq<Id>)
    requires Pruning(b) && Enabled(b, Snapshot(author, order))
    ensures PublishOk(Next(b, Snapshot(author, order)), author)
  {
  }

  lemma StepKeepsPublish(b: Bus, step: Step, a: Id)
    requires Pruning(b) && (forall x | x in b.pubs :: PublishOk(b, x)) && Enabled(b, step) && a in Next(b, step).pubs
    ensures PublishOk(Next(b, step), a)
  {
    if step.Snapshot? && step.author == a {
      SnapshotIsOk(b, a, step.order);
    } else {
      assert a in b.pubs && Count(Next(b, step), a) == Count(b, a);
      assert PublishOk(b, a);
    }
  }

  /** A subscriber whose stream a step leaves alone stays in order. */
  lemma StreamCarries(b: Bus, c: Bus, s: Id)
    requires s in b.subs && s in c.subs && StreamOk(b, s) && Bounded(c.subs[s])
    requires Stream(c.subs[s]) == Stream(b.subs[s])
    requires forall a :: Count(b, a) <= Count(c, a)
    requires forall a | a in c.pubs && Owes(c.pubs[a], s) ::
               || (a in b.pubs && Owes(b.pubs[a], s) && c.pubs[a].event == b.pubs[a].event)
               || c.pubs[a].event.n == Count(b, a)
    ensures StreamOk(c, s)
  {
  }

  lemma PutKeepsStream(b: Bus, author: Id, s: Id)
    requires s in b.subs && StreamOk(b, s) && Enabled(b, Put(author)) && PublishOk(b, author)
    requires forall a | a in b.pubs :: b.pubs[a].event.author == a
    ensures StreamOk(Next(b, Put(author)), s)
  {
    var p := b.pubs[author];
    var sub := b.subs[s];
    var c := Next(b, Put(author));
    if p.current == Some(s) && !Full(sub) {
      var stream := Stream(sub);
      assert Owes(p, s);
      assert Stream(c.subs[s]) == stream + [Some(p.event)];
      AppendKeepsOrder(stream, p.event);
      forall a ensures Before(Stream(c.subs[s]), a, Count(c, a)) {
        assert Before(stream, a, Count(b, a));
      }
      forall a | a in c.pubs && Owes(c.pubs[a], s) ensures Before(Stream(c.subs[s]), a, c.pubs[a].event.n) {
        assert a != author && Owes(b.pubs[a], s);
      }
    } else {
      StreamCarries(b, c, s);
    }
  }

  lemma VisitKeepsStream(b: Bus, author: Id, s: Id)
    requires s in b.subs && StreamOk(b, s) && Enabled(b, Visit(author))
    ensures StreamOk(Next(b, Visit(author)), s)
  {
    var p := b.pubs[author];
    assert p.todo == [p.todo[0]] + p.todo[1..];
    StreamCarries(b, Next(b, Visit(author)), s);
  }

  lemma SnapshotKeepsStream(b: Bus, author: Id, order: seq<Id>, s: Id)
    requires s in b.subs && StreamOk(b, s) && Enabled(b, Snapshot(author, order))
    ensures StreamOk(Next(b, Snapshot(author, order)), s)
  {
    var c := Next(b, Snapshot(author, order));
    assert Stream(c.subs[s]) == Stream(b.subs[s]);
    StreamCarries(b, c, s);
  }

  /** The steps of subscribers themselves. */
  lemma OwnStepKeepsStream(b: Bus, step: Step, s: Id)
    requires s in b.subs && StreamOk(b, s) && Enabled(b, step)
    requires step.Prune? || step.Take? || step.Close? || step.Vanish?
             || (step.Sentinel? && (step.sub != s || Full(b.subs[s])))
    ensures StreamOk(Next(b, step), s)
  {
    assert Stream(Next(b, step).subs[s]) == Stream(b.subs[s]);
    StreamCarries(b, Next(b, step), s);
  }

  lemma SubscribeKeepsStream(b: Bus, t: Id, cap: int, s: Id)
    requires s in b.subs && StreamOk(b, s) && Enabled(b, Subscribe(t, cap))
    ensures StreamOk(Next(b, Subscribe(t, cap)), s)
  {
    StreamCarries(b, Next(b, Subscribe(t, cap)), s);
  }

  lemma StepKeepsStream(b: Bus, step: Step, s: Id)
    requires (forall a | a in b.pubs :: PublishOk(b, a)) && (s in b.subs ==> StreamOk(b, s))
    requires Enabled(b, step) && s in Next(b, step).subs
    ensures StreamOk(Next(b, step), s)
  {
    match step
    case Subscribe(t, cap) => if s != t { SubscribeKeepsStream(b, t, cap, s); } else { NewcomerIsOk(b, t, cap); }
    case Snapshot(author, order) => SnapshotKeepsStream(b, author, order, s);
    case Visit(author) => VisitKeepsStream(b, author, s);
    case Put(author) => PutKeepsStream(b, author, s);
    case Sentinel(t) =>
      if s == t && !Full(b.subs[s]) { SentinelKeepsStream(b, s); } else { OwnStepKeepsStream(b, step, s); }
    case _ => OwnStepKeepsStream(b, step, s);
  }

  lemma NewcomerIsOk(b: Bus, s: Id, cap: int)
    requires s !in b.subs && forall a | a in b.pubs :: PublishOk(b, a)
    ensures StreamOk(Next(b, Subscribe(s, cap)), s) && PromisesOk(Next(b, Subscribe(s, cap)), s)
  {
  }

  lemma SentinelKeepsStream(b: Bus, s: Id)
    requires s in b.subs && StreamOk(b, s) && Enabled(b, Sentinel(s)) && !Full(b.subs[s])
    ensures StreamOk(Next(b, Sentinel(s)), s)
  {
    var stream := Stream(b.subs[s]);
    var c := Next(b, Sentinel(s));
    assert Stream(c.subs[s]) == stream + [None];
    forall a ensures Before(stream + [None], a, Count(c, a)) {
      assert Before(stream, a, Count(b, a));
    }
    forall a | a in c.pubs && Owes(c.pubs[a], s) ensures Before(stream + [None], a, c.pubs[a].event.n) {
      assert Before(stream, a, b.pubs[a].event.n);
    }
  }

  // ---------- promises ----------

  lemma SnapshotKeepsPromises(b: Bus, author: Id, order: seq<Id>, s: Id)
    requires Pruning(b) && Enabled(b, Snapshot(author, order)) && s in b.subs && PromisesOk(b, s)
    ensures PromisesOk(Next(b, Snapshot(author, order)), s)
  {
  }

  lemma VisitKeepsPromises(b: Bus, author: Id, s: Id)
    requires Enabled(b, Visit(author)) && s in b.subs && PromisesOk(b, s)
    ensures PromisesOk(Next(b, Visit(author)), s)
  {
  }

  lemma PutKeepsPromises(b: Bus, author: Id, s: Id)
    requires Enabled(b, Put(author)) && s in b.subs && PromisesOk(b, s)
    ensures PromisesOk(Next(b, Put(author)), s)
  {
  }

  lemma OwnStepKeepsPromises(b: Bus, c: Bus, s: Id)
    requires s in b.subs && s in c.subs && PromisesOk(b, s) && c.pubs == b.pubs
    requires c.subs[s].promised == b.subs[s].promised && c.subs[s].lost == b.subs[s].lost
    requires Open(c.subs[s]) ==> Open(b.subs[s])
    requires forall e :: Received(c.subs[s], e) <==> Received(b.subs[s], e)
    ensures PromisesOk(c, s)
  {
  }

  lemma StepKeepsPromises(b: Bus, step: Step, s: Id)
    requires Pruning(b) && (forall a | a in b.pubs :: PublishOk(b, a)) && (s in b.subs ==> PromisesOk(b, s))
    requires Enabled(b, step) && s in Next(b, step).subs
    ensures PromisesOk(Next(b, step), s)
  {
    var c := Next(b, step);
    match step
    case Subscribe(t, cap) => if s == t { NewcomerIsOk(b, t, cap); } else { OwnStepKeepsPromises(b, c, s); }
    case Snapshot(author, order) => SnapshotKeepsPromises(b, author, order, s);
    case Visit(author) => VisitKeepsPromises(b, author, s);
    case Put(author) => PutKeepsPromises(b, author, s);
    case Prune(author) => PruneKeepsPromises(b, author, s);
    case Take(t) =>
      assert Stream(c.subs[s]) == Stream(b.subs[s]);
      OwnStepKeepsPromises(b, c, s);
    case Sentinel(t) =>
      assert Stream(c.subs[s]) == Stream(b.subs[s]) || Stream(c.subs[s]) == Stream(b.subs[s]) + [None];
      OwnStepKeepsPromises(b, c, s);
    case _ => OwnStepKeepsPromises(b, c, s);
  }

  lemma PruneKeepsPromises(b: Bus, author: Id, s: Id)
    requires Enabled(b, Prune(author)) && s in b.subs && PromisesOk(b, s)
    ensures PromisesOk(Next(b, Prune(author)), s)
  {
  }

  lemma StepKeepsInv(b: Bus, step: Step)
    requires Inv(b) && Enabled(b, step)
    ensures Inv(Next(b, step))
  {
    StepKeepsPruning(b, step);
    forall a | a in Next(b, step).pubs ensures PublishOk(Next(b, step), a) {
      StepKeepsPublish(b, step, a);
    }
    forall s | s in Next(b, step).subs ensures StreamOk(Next(b, step), s) && PromisesOk(Next(b, step), s) {
      StepKeepsStream(b, step, s);
      StepKeepsPromises(b, step, s);
    }
  }

  // ---------- runs ----------

  predicate Run(b: Bus, steps: seq<Step>)
    decreases |steps|
  {
    steps != [] ==> Enabled(b, steps[0]) && Run(Next(b, steps[0]), steps[1..])
  }

  function After(b: Bus, steps: seq<Step>): Bus
    requires Run(b, steps)
    decreases |steps|
  {
    if steps == [] then b else After(Next(b, steps[0]), steps[1..])
  }

  lemma {:induction false} RunKeepsInv(b: Bus, steps: seq<Step>)
    requires Inv(b) && Run(b, steps)
    ensures Inv(After(b, steps))
    decreases |steps|
  {
    if steps != [] {
      StepKeepsInv(b, steps[0]);
      RunKeepsInv(Next(b, steps[0]), steps[1..]);
    }
  }

  /** However the threads interleave: no queue outgrows its bound, and no open live subscriber is pruned. */
  lemma QueuesBoundedAndNobodyPruned(steps: seq<Step>)
    requires Run(Empty, steps)
    ensures forall s | s in After(Empty, steps).subs ::
              && Bounded(After(Empty, steps).subs[s])
              && (Open(After(Empty, steps).subs[s]) ==> s in After(Empty, steps).registered)
  {
    EmptyIsOk();
    RunKeepsInv(Empty, steps);
    assert forall s | s in After(Empty, steps).subs :: StreamOk(After(Empty, steps), s);
  }

  /**
   Every subscriber sees each publisher's events in the order they were published, none twice, and only
   promised ones.
   */
  lemma PublisherOrderIsKept(steps: seq<Step>, s: Id)
    requires Run(Empty, steps) && s in After(Empty, steps).subs
    ensures InOrder(Stream(After(Empty, steps).subs[s]))
    ensures forall e | Received(After(Empty, steps).subs[s], e) :: e in After(Empty, steps).subs[s].promised
  {
    EmptyIsOk();
    RunKeepsInv(Empty, steps);
    assert StreamOk(After(Empty, steps), s) && PromisesOk(After(Empty, steps), s);
  }

  /**
   A subscriber that is still open and never overflowed has received every event whose snapshot
   included it and whose publisher is done with it.
   */
  lemma NothingLostWithoutOverflow(steps: seq<Step>, s: Id, e: Event)
    requires Run(Empty, steps) && s in After(Empty, steps).subs && Open(After(Empty, steps).subs[s])
    requires After(Empty, steps).subs[s].lost == {} && e in After(Empty, steps).subs[s].promised
    requires forall a | a in After(Empty, steps).pubs && After(Empty, steps).pubs[a].event == e ::
               !Owes(After(Empty, steps).pubs[a], s)
    ensures Received(After(Empty, steps).subs[s], e)
  {
    EmptyIsOk();
    RunKeepsInv(Empty, steps);
    assert PromisesOk(After(Empty, steps), s);
  }

  /** Publisher a has found the subscriber open and is about to put its event. */
  predicate AboutToPut(b: Bus, a: Id, s: Id) {
    a in b.pubs && b.pubs[a].current == Some(s)
  }

  /**
   After a subscriber was closed and its sentinel queued, a publisher's next step puts an event
   behind the sentinel exactly if that publisher was already past its check, and there is room.
   */
  lemma FollowsTheSentinelExactly(b: Bus, a: Id, s: Id, step: Step)
    requires s in b.subs && b.subs[s].closed && Enabled(b, step) && (step == Visit(a) || step == Put(a))
    requires |Stream(b.subs[s])| > 0 && Stream(b.subs[s])[|Stream(b.subs[s])| - 1] == None
    ensures var stream := Stream(Next(b, step).subs[s]);
            stream[|stream| - 1] != None <==> AboutToPut(b, a, s) && !Full(b.subs[s])
  {
  }

  /** Of a closed subscriber only publishers that were past their check when it closed are ever about to put. */
  lemma {:induction false} NoneAboutToPutAnew(b: Bus, steps: seq<Step>, a: Id, s: Id)
    requires Run(b, steps) && s in b.subs && b.subs[s].closed && !AboutToPut(b, a, s)
    ensures s in After(b, steps).subs && After(b, steps).subs[s].closed && !AboutToPut(After(b, steps), a, s)
    decreases |steps|
  {
    if steps != [] {
      NoneAboutToPutAnew(Next(b, steps[0]), steps[1..], a, s);
    }
  }

  /** Closing ends the stream of a subscriber, and leaves a put that is under way as it is. */
  lemma ClosedEndsWithSentinel(b: Bus, s: Id)
    requires s in b.subs && b.subs[s].cap <= 0
    ensures var ended := Next(Next(b, Close(s)), Sentinel(s));
            && ended.pubs == b.pubs && s in ended.subs && ended.subs[s].cap <= 0
            && Stream(ended.subs[s]) == Stream(b.subs[s]) + [None]
  {
  }

  lemma PutExtends(b: Bus, author: Id, s: Id)
    requires author in b.pubs && b.pubs[author].current == Some(s) && s in b.subs && b.subs[s].cap <= 0
    ensures Stream(Next(b, Put(author)).subs[s]) == Stream(b.subs[s]) + [Some(b.pubs[author].event)]
  {
  }

  /** Closing is not atomic with putting: a subscriber found open can still get the event after its sentinel. */
  lemma EventCanFollowTheSentinel(b: Bus, author: Id, s: Id)
    requires Inv(b) && author in b.pubs && b.pubs[author].current == Some(s) && Open(b.subs[s]) && b.subs[s].cap <= 0
    ensures var closed := Next(b, Close(s));
            var ended := Next(closed, Sentinel(s));
            var stream := Stream(Next(ended, Put(author)).subs[s]);
            |stream| >= 2 && stream[|stream| - 2] == None && stream[|stream| - 1] == Some(b.pubs[author].event)
  {
    ClosedEndsWithSentinel(b, s);
    PutExtends(Next(Next(b, Close(s)), Sentinel(s)), author, s);
  }
}
