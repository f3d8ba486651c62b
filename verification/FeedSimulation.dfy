/** Whole runs of a list registry and a list cache, with told and silent changes, snapshots, deliveries and refreshes,
    are runs of the machine of `FeedRaces` on the maps that the lists stand for. */
module FeedSimulation {
  import opened FeedModel
  import opened FeedRaces
  import opened KeyedLists
  import opened Options

  datatype ListEvent<I, T, D> = About(c: FeedModel.Change<I, T, D>) | Snapshot(endpoints: seq<T>)

  /** The registry's instances, the events under way, the cached endpoints, what the refreshes under way have read, and
      the snapshot the feed has read but not published. */
  datatype Lists<I, T, D> = Lists(
    registry: seq<I>, queue: seq<ListEvent<I, T, D>>, cache: seq<T>, fetched: seq<seq<T>>, polled: Option<seq<T>>)

  datatype ListStep<I, T, D> =
    | TellChange(c: FeedModel.Change<I, T, D>) | SilentChange(c: FeedModel.Change<I, T, D>)
    | PollRegistry | PublishSnapshot | DeliverEvent | ReadRegistry | CommitRead(n: nat) | FailRead(n: nat)

  function Delivered<I, T, K(==), D>(cache: seq<T>, e: ListEvent<I, T, D>, f: Feed<I, T, K, D>): seq<T> {
    match e
    case About(c) => Told(cache, c, f)
    case Snapshot(endpoints) => endpoints
  }

  function WithoutRead<T>(fetched: seq<seq<T>>, n: nat): seq<seq<T>>
    requires n < |fetched|
  {
    fetched[..n] + fetched[n + 1..]
  }

  function NextLists<I, T, K(==), D(==)>(l: Lists<I, T, D>, s: ListStep<I, T, D>, f: Feed<I, T, K, D>): Lists<I, T, D> {
    match s
    case TellChange(c) => l.(registry := Changed(l.registry, c, f), queue := l.queue + [About(c)])
    case SilentChange(c) => l.(registry := Changed(l.registry, c, f))
    case PollRegistry => l.(polled := Some(Recompute(l.registry, f)))
    case PublishSnapshot =>
      if l.polled.None? then l else l.(queue := l.queue + [Snapshot(l.polled.value)], polled := None)
    case DeliverEvent =>
      if l.queue == [] then l else l.(cache := Delivered(l.cache, l.queue[0], f), queue := l.queue[1..])
    case ReadRegistry => l.(fetched := l.fetched + [Recompute(l.registry, f)])
    case CommitRead(n) =>
      if n >= |l.fetched| then l else l.(cache := l.fetched[n], fetched := WithoutRead(l.fetched, n))
    case FailRead(n) => if n >= |l.fetched| then l else l.(fetched := WithoutRead(l.fetched, n))
  }

  // ---------- The maps the lists stand for ----------

  function Entries<I, T, K(==), D>(endpoints: seq<T>, f: Feed<I, T, K, D>): map<K, T> {
    AsMap(endpoints, f.key)
  }

  function EventEffect<I, T, K(==), D>(e: ListEvent<I, T, D>, f: Feed<I, T, K, D>): Effect<K, T> {
    match e
    case About(c) => EffectOf(c, f)
    case Snapshot(endpoints) => Whole(Entries(endpoints, f))
  }

  function StepOf<I, T, K(==), D(==)>(l: Lists<I, T, D>, s: ListStep<I, T, D>, f: Feed<I, T, K, D>): Step<K, T> {
    match s
    case TellChange(c) => Tell(EffectOf(c, f))
    case SilentChange(c) => Step.Change(Whole(Entries(Recompute(Changed(l.registry, c, f), f), f)))
    case PollRegistry => Poll
    case PublishSnapshot => PublishPolled
    case DeliverEvent => Deliver
    case ReadRegistry => Read
    case CommitRead(n) => Commit(n)
    case FailRead(n) => Fail(n)
  }

  /** A told change is faithful to its event; a silent one may be any that keeps identities distinct. */
  ghost predicate Allowed<I, T, K, D>(l: Lists<I, T, D>, s: ListStep<I, T, D>, f: Feed<I, T, K, D>) {
    match s
    case TellChange(c) => WellFormed(c, f) && Faithful(l.registry, c, f)
    case SilentChange(c) => Distinct(Recompute(Changed(l.registry, c, f), f), f.key)
    case _ => true
  }

  ghost predicate EventIsDistinct<I, T, K, D>(e: ListEvent<I, T, D>, f: Feed<I, T, K, D>) {
    e.Snapshot? ==> Distinct(e.endpoints, f.key)
  }

  /** No list has an identity twice. */
  ghost predicate AllDistinct<I, T, K, D>(l: Lists<I, T, D>, f: Feed<I, T, K, D>) {
    && Distinct(l.registry, f.id) && Distinct(Recompute(l.registry, f), f.key) && Distinct(l.cache, f.key)
    && (forall i :: 0 <= i < |l.queue| ==> EventIsDistinct(l.queue[i], f))
    && (forall i :: 0 <= i < |l.fetched| ==> Distinct(l.fetched[i], f.key))
    && (l.polled.Some? ==> Distinct(l.polled.value, f.key))
  }

  ghost predicate QueueStandsFor<I, T, K, D>(
    queue: seq<ListEvent<I, T, D>>, effects: seq<Effect<K, T>>, f: Feed<I, T, K, D>) {
    |queue| == |effects| && forall i :: 0 <= i < |queue| ==> EventEffect(queue[i], f) == effects[i]
  }

  ghost predicate ReadsStandFor<I, T, K, D>(fetched: seq<seq<T>>, refreshes: seq<Refresh<K, T>>, f: Feed<I, T, K, D>) {
    |fetched| == |refreshes| && forall i :: 0 <= i < |fetched| ==> Entries(fetched[i], f) == refreshes[i].read
  }

  /** `w` is what `l` stands for. */
  ghost predicate StandsFor<I, T, K, D>(l: Lists<I, T, D>, w: World<K, T>, f: Feed<I, T, K, D>) {
    && w.registry == Entries(Recompute(l.registry, f), f) && w.cache == Entries(l.cache, f)
    && QueueStandsFor(l.queue, w.queue, f) && ReadsStandFor(l.fetched, w.refreshes, f)
    && w.polled == if l.polled.None? then None else Some(Entries(l.polled.value, f))
  }

  // ---------- One step ----------

  lemma ChangeSimulates<I(!new), T(!new), K(!new), D>(
    l: Lists<I, T, D>, w: World<K, T>, s: ListStep<I, T, D>, f: Feed<I, T, K, D>)
    requires FeedModel.Lawful(f) && AllDistinct(l, f) && StandsFor(l, w, f) && Allowed(l, s, f)
    requires s.TellChange? || s.SilentChange?
    ensures AllDistinct(NextLists(l, s, f), f) && StandsFor(NextLists(l, s, f), Next(w, StepOf(l, s, f)), f)
  {
    ChangedStaysDistinct(l.registry, s.c, f);
    if s.TellChange? {
      FaithfulChangeIsItsEffect(l.registry, s.c, f);
      OneMoreEvent(l.queue, About(s.c), w.queue, f);
    }
  }

  lemma DeliverSimulates<I(!new), T(!new), K(!new), D>(l: Lists<I, T, D>, w: World<K, T>, f: Feed<I, T, K, D>)
    requires AllDistinct(l, f) && StandsFor(l, w, f) && l.queue != []
    ensures var next := NextLists(l, DeliverEvent, f); AllDistinct(next, f) && StandsFor(next, Next(w, Deliver), f)
  {
    assert EventEffect(l.queue[0], f) == w.queue[0] && EventIsDistinct(l.queue[0], f);
    match l.queue[0]
    case About(c) =>
      ToldStaysDistinct(l.cache, c, f);
      EventIsItsEffect(l.cache, c, f);
    case Snapshot(endpoints) =>
  }

  lemma ReadSimulates<I(!new), T(!new), K(!new), D>(l: Lists<I, T, D>, w: World<K, T>, f: Feed<I, T, K, D>)
    requires AllDistinct(l, f) && StandsFor(l, w, f)
    ensures var next := NextLists(l, ReadRegistry, f); AllDistinct(next, f) && StandsFor(next, Next(w, Read), f)
  {
    var e, r := Recompute(l.registry, f), Refresh(w.registry, |w.queue|, true);
    assert Entries(e, f) == r.read;
    OneMoreRead(l.fetched, e, w.refreshes, r, f);
  }

  lemma OneMoreRead<I, T, K, D>(
    fetched: seq<seq<T>>, e: seq<T>, refreshes: seq<Refresh<K, T>>, r: Refresh<K, T>, f: Feed<I, T, K, D>)
    requires ReadsStandFor(fetched, refreshes, f) && Entries(e, f) == r.read
    ensures ReadsStandFor(fetched + [e], refreshes + [r], f)
  {
  }

  lemma OneReadLess<I, T, K, D>(
    fetched: seq<seq<T>>, refreshes: seq<Refresh<K, T>>, n: nat, f: Feed<I, T, K, D>)
    requires ReadsStandFor(fetched, refreshes, f) && n < |fetched|
    requires forall i :: 0 <= i < |fetched| ==> Distinct(fetched[i], f.key)
    ensures ReadsStandFor(WithoutRead(fetched, n), Without(refreshes, n), f)
    ensures forall i :: 0 <= i < |fetched| - 1 ==> Distinct(WithoutRead(fetched, n)[i], f.key)
  {
  }

  lemma CommitSimulates<I(!new), T(!new), K(!new), D>(l: Lists<I, T, D>, w: World<K, T>, n: nat, f: Feed<I, T, K, D>)
    requires AllDistinct(l, f) && StandsFor(l, w, f) && n < |l.fetched|
    ensures var next := NextLists(l, CommitRead(n), f); AllDistinct(next, f) && StandsFor(next, Next(w, Commit(n)), f)
  {
    OneReadLess(l.fetched, w.refreshes, n, f);
  }

  lemma FailSimulates<I(!new), T(!new), K(!new), D>(l: Lists<I, T, D>, w: World<K, T>, n: nat, f: Feed<I, T, K, D>)
    requires AllDistinct(l, f) && StandsFor(l, w, f) && n < |l.fetched|
    ensures var next := NextLists(l, FailRead(n), f); AllDistinct(next, f) && StandsFor(next, Next(w, Fail(n)), f)
  {
    OneReadLess(l.fetched, w.refreshes, n, f);
  }

  lemma PollSimulates<I(!new), T(!new), K(!new), D>(l: Lists<I, T, D>, w: World<K, T>, f: Feed<I, T, K, D>)
    requires AllDistinct(l, f) && StandsFor(l, w, f)
    ensures var next := NextLists(l, PollRegistry, f); AllDistinct(next, f) && StandsFor(next, Next(w, Poll), f)
  {
  }

  lemma OneMoreEvent<I, T, K, D>(
    queue: seq<ListEvent<I, T, D>>, e: ListEvent<I, T, D>, effects: seq<Effect<K, T>>, f: Feed<I, T, K, D>)
    requires QueueStandsFor(queue, effects, f)
    ensures QueueStandsFor(queue + [e], effects + [EventEffect(e, f)], f)
  {
  }

  lemma CleanedStandFor<I, T, K, D>(fetched: seq<seq<T>>, refreshes: seq<Refresh<K, T>>, f: Feed<I, T, K, D>)
    requires ReadsStandFor(fetched, refreshes, f)
    ensures ReadsStandFor(fetched, Cleaned(refreshes), f)
  {
  }

  lemma PublishSimulates<I(!new), T(!new), K(!new), D>(l: Lists<I, T, D>, w: World<K, T>, f: Feed<I, T, K, D>)
    requires AllDistinct(l, f) && StandsFor(l, w, f) && l.polled.Some?
    ensures var next := NextLists(l, PublishSnapshot, f);
            AllDistinct(next, f) && StandsFor(next, Next(w, PublishPolled), f)
  {
    var e := Snapshot(l.polled.value);
    OneMoreEvent(l.queue, e, w.queue, f);
    CleanedStandFor(l.fetched, w.refreshes, f);
    assert EventIsDistinct(e, f);
  }

  lemma StepSimulates<I(!new), T(!new), K(!new), D>(
    l: Lists<I, T, D>, w: World<K, T>, s: ListStep<I, T, D>, f: Feed<I, T, K, D>)
    requires FeedModel.Lawful(f) && AllDistinct(l, f) && StandsFor(l, w, f) && Allowed(l, s, f)
    ensures AllDistinct(NextLists(l, s, f), f) && StandsFor(NextLists(l, s, f), Next(w, StepOf(l, s, f)), f)
  {
    match s
    case TellChange(_) => ChangeSimulates(l, w, s, f);
    case SilentChange(_) => ChangeSimulates(l, w, s, f);
    case DeliverEvent => if l.queue != [] { DeliverSimulates(l, w, f); }
    case PollRegistry => PollSimulates(l, w, f);
    case PublishSnapshot => if l.polled.Some? { PublishSimulates(l, w, f); }
    case ReadRegistry => ReadSimulates(l, w, f);
    case CommitRead(n) => if n < |l.fetched| { CommitSimulates(l, w, n, f); }
    case FailRead(n) => if n < |l.fetched| { FailSimulates(l, w, n, f); }
  }

  // ---------- Whole runs ----------

  function ListsAfter<I, T, K(==), D(==)>(
    l: Lists<I, T, D>, ss: seq<ListStep<I, T, D>>, f: Feed<I, T, K, D>): Lists<I, T, D> {
    if ss == [] then l else NextLists(ListsAfter(l, ss[..|ss| - 1], f), ss[|ss| - 1], f)
  }

  ghost predicate AllAllowed<I, T, K, D>(l: Lists<I, T, D>, ss: seq<ListStep<I, T, D>>, f: Feed<I, T, K, D>) {
    ss == []
    || (AllAllowed(l, ss[..|ss| - 1], f) && Allowed(ListsAfter(l, ss[..|ss| - 1], f), ss[|ss| - 1], f))
  }

  function StepsOf<I, T, K(==), D(==)>(
    l: Lists<I, T, D>, ss: seq<ListStep<I, T, D>>, f: Feed<I, T, K, D>): (r: seq<Step<K, T>>)
    ensures |r| == |ss|
  {
    if ss == [] then []
    else StepsOf(l, ss[..|ss| - 1], f) + [StepOf(ListsAfter(l, ss[..|ss| - 1], f), ss[|ss| - 1], f)]
  }

  lemma {:induction false} RunSimulates<I(!new), T(!new), K(!new), D>(
    l: Lists<I, T, D>, w: World<K, T>, ss: seq<ListStep<I, T, D>>, f: Feed<I, T, K, D>)
    requires FeedModel.Lawful(f) && AllDistinct(l, f) && StandsFor(l, w, f) && AllAllowed(l, ss, f)
    ensures AllDistinct(ListsAfter(l, ss, f), f)
    ensures StandsFor(ListsAfter(l, ss, f), Reached(w, StepsOf(l, ss, f)), f)
  {
    if ss == [] {
    } else {
      var init, last := ss[..|ss| - 1], ss[|ss| - 1];
      RunSimulates(l, w, init, f);
      var before, steps := ListsAfter(l, init, f), StepsOf(l, ss, f);
      assert steps[..|steps| - 1] == StepsOf(l, init, f);
      StepSimulates(before, Reached(w, StepsOf(l, init, f)), last, f);
    }
  }

  lemma EqualMapsEqualMultisets<T(!new), K>(a: seq<T>, b: seq<T>, key: T -> K)
    requires Distinct(a, key) && Distinct(b, key) && AsMap(a, key) == AsMap(b, key)
    ensures multiset(a) == multiset(b)
  {
    forall x ensures multiset(a)[x] == multiset(b)[x] {
      MultiplicityOf(a, x, key);
      MultiplicityOf(b, x, key);
    }
  }

  lemma MultiplicityOf<T, K>(s: seq<T>, x: T, key: T -> K)
    requires Distinct(s, key)
    ensures multiset(s)[x] == if key(x) in AsMap(s, key) && AsMap(s, key)[key(x)] == x then 1 else 0
  {
    AsMapIs(s, key);
    if x in s {
      var k :| 0 <= k < |s| && s[k] == x;
      OnlyOnce(s, k, key);
    } else {
      assert x !in multiset(s);
    }
  }

  /** Nothing is under way, and the cache holds any endpoints of distinct identities, such as none yet. */
  function StartedLists<I, T, D>(registry: seq<I>, cache: seq<T>): Lists<I, T, D> {
    Lists(registry, [], cache, [], None)
  }

  /** In every run of list registry, feed and cache: once the events are delivered, a trusted cache holds exactly what
      resolving anew yields, up to order. */
  lemma ListRunAgrees<I(!new), T(!new), K(!new), D>(
    registry: seq<I>, cache: seq<T>, ss: seq<ListStep<I, T, D>>, f: Feed<I, T, K, D>)
    requires FeedModel.Lawful(f) && AllDistinct(StartedLists(registry, cache), f)
    requires AllAllowed(StartedLists(registry, cache), ss, f)
    ensures var l: Lists<I, T, D> := StartedLists(registry, cache);
            var end := ListsAfter(l, ss, f);
            var w := Reached(Started(Entries(Recompute(registry, f), f), Entries(cache, f)), StepsOf(l, ss, f));
            w.trusted && end.queue == [] ==> Agrees(end.cache, end.registry, f)
  {
    var l: Lists<I, T, D> := StartedLists(registry, cache);
    var end := ListsAfter(l, ss, f);
    var w0 := Started(Entries(Recompute(registry, f), f), Entries(cache, f));
    RunSimulates(l, w0, ss, f);
    if Reached(w0, StepsOf(l, ss, f)).trusted && end.queue == [] {
      RunIsCoherent(w0.registry, w0.cache, StepsOf(l, ss, f));
      EqualMapsEqualMultisets(end.cache, Recompute(end.registry, f), f.key);
    }
  }
}
