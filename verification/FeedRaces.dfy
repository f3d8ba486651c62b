/** Refreshes that race with the event feed. Any number of refreshes read the registry outside the cache's lock and
    commit later; events published meanwhile may reach the cache before that. Registry and cache are maps keyed by
    endpoint identity. A change with an event of its own is told by the entry its event writes or removes; other
    changes are only told by snapshots, which the feed reads first and publishes later. */
module FeedRaces {
  import opened FeedModel
  import opened KeyedLists
  import opened Options

  /** What an event does to a map: write an entry, remove one, replace everything, or nothing. */
  datatype Effect<K, V> = Set(key: K, value: V) | Unset(key: K) | Whole(entries: map<K, V>) | Nop

  function Affect<K, V>(m: map<K, V>, e: Effect<K, V>): map<K, V> {
    match e
    case Set(k, v) => m[k := v]
    case Unset(k) => m - {k}
    case Whole(entries) => entries
    case Nop => m
  }

  function Replay<K, V>(m: map<K, V>, es: seq<Effect<K, V>>): map<K, V> {
    if es == [] then m else Affect(Replay(m, es[..|es| - 1]), es[|es| - 1])
  }

  predicate Writes<K(==), V>(e: Effect<K, V>, k: K) {
    match e
    case Set(key, _) => key == k
    case Unset(key) => key == k
    case Whole(_) => true
    case Nop => false
  }

  ghost predicate Touched<K, V>(es: seq<Effect<K, V>>, k: K) {
    exists i :: 0 <= i < |es| && Writes(es[i], k)
  }

  function At<K, V>(m: map<K, V>, k: K): Option<V> {
    if k in m then Some(m[k]) else None
  }

  ghost predicate Same<K(!new), V>(a: map<K, V>, b: map<K, V>) {
    forall k :: At(a, k) == At(b, k)
  }

  lemma SameIsEqual<K(!new), V>(a: map<K, V>, b: map<K, V>)
    requires Same(a, b)
    ensures a == b
  {
    forall k | k in a ensures k in b && a[k] == b[k] {
      assert At(a, k) == At(b, k);
    }
    forall k | k in b ensures k in a {
      assert At(a, k) == At(b, k);
    }
  }

  lemma TouchedAfter<K, V>(es: seq<Effect<K, V>>, e: Effect<K, V>, k: K)
    ensures Touched(es + [e], k) <==> Touched(es, k) || Writes(e, k)
  {
    if Touched(es, k) {
      var i :| 0 <= i < |es| && Writes(es[i], k);
      assert (es + [e])[i] == es[i];
    }
    assert (es + [e])[|es|] == e;
  }

  lemma TouchedSuffix<K, V>(es: seq<Effect<K, V>>, n: nat, k: K)
    requires n <= |es| && Touched(es[n..], k)
    ensures Touched(es, k)
  {
    var i :| 0 <= i < |es[n..]| && Writes(es[n..][i], k);
    assert es[n + i] == es[n..][i];
  }

  lemma ReplayNext<K, V>(m: map<K, V>, es: seq<Effect<K, V>>, e: Effect<K, V>)
    ensures Replay(m, es + [e]) == Affect(Replay(m, es), e)
  {
    assert (es + [e])[..|es|] == es;
  }

  /** What a replay leaves at a key: the last write, whatever it starts from; else what was there. */
  lemma {:induction false} ReplayAt<K, V>(m: map<K, V>, m': map<K, V>, es: seq<Effect<K, V>>, k: K)
    ensures Touched(es, k) ==> At(Replay(m, es), k) == At(Replay(m', es), k)
    ensures !Touched(es, k) ==> At(Replay(m, es), k) == At(m, k)
  {
    if es == [] {
    } else {
      var init, last := es[..|es| - 1], es[|es| - 1];
      ReplayAt(m, m', init, k);
      assert es == init + [last];
      TouchedAfter(init, last, k);
    }
  }

  lemma {:induction false} ReplayConcat<K, V>(m: map<K, V>, a: seq<Effect<K, V>>, b: seq<Effect<K, V>>)
    ensures Replay(m, a + b) == Replay(Replay(m, a), b)
    decreases |b|
  {
    if b == [] {
      assert a + b == a;
    } else {
      assert (a + b)[..|a + b| - 1] == a + b[..|b| - 1];
      ReplayConcat(m, a, b[..|b| - 1]);
    }
  }

  lemma ReplayOne<K, V>(m: map<K, V>, e: Effect<K, V>)
    ensures Replay(m, [e]) == Affect(m, e)
  {
    assert [e][..0] == [];
    assert Replay(m, [e][..0]) == m;
  }

  // ---------- The machine ----------

  /** A refresh under way: what it read, and how many of the queued events were published before it read. It is clean
      while whatever changed since is still under way in the later ones. */
  datatype Refresh<K, V> = Refresh(read: map<K, V>, older: nat, clean: bool)

  /** The registry, the events published and not delivered, the cache, the refreshes under way and the snapshot the
      feed has read but not published. `current`: the queue is known to end in what the registry has.
      `trusted`: the cache misses nothing that the queue does not bring. */
  datatype World<K, V> = World(
    registry: map<K, V>, queue: seq<Effect<K, V>>, cache: map<K, V>, refreshes: seq<Refresh<K, V>>,
    polled: Option<map<K, V>>, current: bool, trusted: bool)

  /** A change told by its own event, one that is not, the feed reading and publishing a snapshot, a delivery, and a
      refresh that reads, commits or fails. */
  datatype Step<K, V> =
    | Tell(e: Effect<K, V>) | Change(e: Effect<K, V>) | Poll | PublishPolled | Deliver
    | Read | Commit(n: nat) | Fail(n: nat)

  /** Also true of an empty queue. */
  predicate Settled<K, V>(w: World<K, V>) {
    w.current || w.queue == []
  }

  function Dirtied<K, V>(rs: seq<Refresh<K, V>>): (r: seq<Refresh<K, V>>)
    ensures |r| == |rs| && forall i :: 0 <= i < |rs| ==> r[i] == rs[i].(clean := false)
  {
    seq(|rs|, i requires 0 <= i < |rs| => rs[i].(clean := false))
  }

  function Cleaned<K, V>(rs: seq<Refresh<K, V>>): (r: seq<Refresh<K, V>>)
    ensures |r| == |rs| && forall i :: 0 <= i < |rs| ==> r[i] == rs[i].(clean := true)
  {
    seq(|rs|, i requires 0 <= i < |rs| => rs[i].(clean := true))
  }

  /** A delivery overtakes the refreshes that read before the event was published. */
  function Age<K, V>(r: Refresh<K, V>): Refresh<K, V> {
    if r.older > 0 then r.(older := r.older - 1) else r.(clean := false)
  }

  function Aged<K, V>(rs: seq<Refresh<K, V>>): (r: seq<Refresh<K, V>>)
    ensures |r| == |rs| && forall i :: 0 <= i < |rs| ==> r[i] == Age(rs[i])
  {
    seq(|rs|, i requires 0 <= i < |rs| => Age(rs[i]))
  }

  function Without<K, V>(rs: seq<Refresh<K, V>>, n: nat): seq<Refresh<K, V>>
    requires n < |rs|
  {
    rs[..n] + rs[n + 1..]
  }

  function Next<K(!new), V(==)>(w: World<K, V>, s: Step<K, V>): World<K, V> {
    match s
    case Tell(e) => w.(registry := Affect(w.registry, e), queue := w.queue + [e], current := Settled(w))
    case Change(e) =>
      if Affect(w.registry, e) == w.registry then w
      else w.(registry := Affect(w.registry, e), refreshes := Dirtied(w.refreshes), current := false, trusted := false)
    case Poll => w.(polled := Some(w.registry))
    case PublishPolled =>
      if w.polled.None? then w
      else
        var published := w.(queue := w.queue + [Whole(w.polled.value)], polled := None);
        if w.polled.value != w.registry then published.(current := false, trusted := false)
        else published.(refreshes := Cleaned(w.refreshes), current := true, trusted := true)
    case Deliver =>
      if w.queue == [] then w
      else w.(cache := Affect(w.cache, w.queue[0]), queue := w.queue[1..], refreshes := Aged(w.refreshes))
    case Read => w.(refreshes := w.refreshes + [Refresh(w.registry, |w.queue|, true)])
    case Commit(n) =>
      if n >= |w.refreshes| then w
      else
        var r := w.refreshes[n];
        w.(cache := r.read, refreshes := Without(w.refreshes, n), trusted := r.clean && Settled(w))
    case Fail(n) => if n >= |w.refreshes| then w else w.(refreshes := Without(w.refreshes, n))
  }

  function Reached<K(!new), V(==)>(w: World<K, V>, ss: seq<Step<K, V>>): World<K, V> {
    if ss == [] then w else Next(Reached(w, ss[..|ss| - 1]), ss[|ss| - 1])
  }

  /** Once the queued events are delivered, the cache is the registry. */
  ghost predicate Coherent<K, V>(w: World<K, V>) {
    Replay(w.cache, w.queue) == w.registry
  }

  /** The queue ends, key by key, in what the registry has. */
  ghost predicate QueueIsCurrent<K(!new), V>(queue: seq<Effect<K, V>>, registry: map<K, V>) {
    forall k | Touched(queue, k) :: At(Replay(map[], queue), k) == At(registry, k)
  }

  /** Every key at which `m` is behind the registry still has an event under way in `es`. */
  ghost predicate CaughtUpBy<K(!new), V>(m: map<K, V>, es: seq<Effect<K, V>>, registry: map<K, V>) {
    forall k | At(m, k) != At(registry, k) :: Touched(es, k)
  }

  ghost predicate IsGood<K(!new), V>(r: Refresh<K, V>, queue: seq<Effect<K, V>>, registry: map<K, V>) {
    r.older <= |queue| && (r.clean ==> CaughtUpBy(r.read, queue[r.older..], registry))
  }

  ghost predicate AllGood<K(!new), V>(rs: seq<Refresh<K, V>>, queue: seq<Effect<K, V>>, registry: map<K, V>) {
    forall i :: 0 <= i < |rs| ==> IsGood(rs[i], queue, registry)
  }

  ghost predicate Inv<K(!new), V>(w: World<K, V>) {
    && (Settled(w) ==> QueueIsCurrent(w.queue, w.registry))
    && AllGood(w.refreshes, w.queue, w.registry)
    && (w.trusted ==> Coherent(w))
  }

  /** Committing `m` leaves the cache coherent if and only if the queue ends in what the registry has and still has an
      event for every key at which `m` is behind the registry. */
  lemma CommitIsCoherentIff<K(!new), V>(m: map<K, V>, queue: seq<Effect<K, V>>, registry: map<K, V>)
    ensures Replay(m, queue) == registry <==> QueueIsCurrent(queue, registry) && CaughtUpBy(m, queue, registry)
  {
    forall k ensures Touched(queue, k) ==> At(Replay(m, queue), k) == At(Replay(map[], queue), k)
             ensures !Touched(queue, k) ==> At(Replay(m, queue), k) == At(m, k) {
      ReplayAt(m, map[], queue, k);
    }
    if QueueIsCurrent(queue, registry) && CaughtUpBy(m, queue, registry) {
      SameIsEqual(Replay(m, queue), registry);
    }
  }

  lemma TellKeepsQueueCurrent<K(!new), V>(queue: seq<Effect<K, V>>, registry: map<K, V>, e: Effect<K, V>)
    requires QueueIsCurrent(queue, registry)
    ensures QueueIsCurrent(queue + [e], Affect(registry, e))
  {
    ReplayNext(map[], queue, e);
    forall k | Touched(queue + [e], k) ensures At(Replay(map[], queue + [e]), k) == At(Affect(registry, e), k) {
      TouchedAfter(queue, e, k);
    }
  }

  lemma TellKeepsGood<K(!new), V>(r: Refresh<K, V>, queue: seq<Effect<K, V>>, registry: map<K, V>, e: Effect<K, V>)
    requires IsGood(r, queue, registry)
    ensures IsGood(r, queue + [e], Affect(registry, e))
  {
    var later := queue[r.older..];
    assert (queue + [e])[r.older..] == later + [e];
    forall k | r.clean && At(r.read, k) != At(Affect(registry, e), k) ensures Touched(later + [e], k) {
      TouchedAfter(later, e, k);
    }
  }

  /** A snapshot has an event for every key. */
  lemma SnapshotMakesGood<K(!new), V>(
    r: Refresh<K, V>, clean: bool, queue: seq<Effect<K, V>>, registry: map<K, V>, m: map<K, V>)
    requires r.older <= |queue|
    ensures IsGood(r.(clean := clean), queue + [Whole(m)], registry)
  {
    var later := queue[r.older..];
    assert (queue + [Whole(m)])[r.older..] == later + [Whole(m)];
    forall k ensures Touched(later + [Whole(m)], k) {
      TouchedAfter(later, Whole(m), k);
    }
  }

  lemma DeliverKeepsQueueCurrent<K(!new), V>(queue: seq<Effect<K, V>>, registry: map<K, V>)
    requires queue != [] && QueueIsCurrent(queue, registry)
    ensures QueueIsCurrent(queue[1..], registry)
  {
    var e, rest := queue[0], queue[1..];
    assert queue == [e] + rest;
    ReplayConcat(map[], [e], rest);
    forall k | Touched(rest, k) ensures At(Replay(map[], rest), k) == At(registry, k) {
      TouchedSuffix(queue, 1, k);
      ReplayAt(map[], Replay(map[], [e]), rest, k);
    }
  }

  lemma DeliverKeepsGood<K(!new), V>(r: Refresh<K, V>, queue: seq<Effect<K, V>>, registry: map<K, V>)
    requires queue != [] && IsGood(r, queue, registry)
    ensures IsGood(Age(r), queue[1..], registry)
  {
    if r.older > 0 {
      assert queue[1..][r.older - 1..] == queue[r.older..];
    }
  }

  lemma DeliverKeepsCoherent<K, V>(cache: map<K, V>, queue: seq<Effect<K, V>>)
    requires queue != []
    ensures Replay(Affect(cache, queue[0]), queue[1..]) == Replay(cache, queue)
  {
    assert queue == [queue[0]] + queue[1..];
    ReplayConcat(cache, [queue[0]], queue[1..]);
    ReplayOne(cache, queue[0]);
  }

  /** A refresh that is good catches up by the whole queue. */
  lemma GoodCatchesUp<K(!new), V>(r: Refresh<K, V>, queue: seq<Effect<K, V>>, registry: map<K, V>)
    requires IsGood(r, queue, registry) && r.clean
    ensures CaughtUpBy(r.read, queue, registry)
  {
    forall k | At(r.read, k) != At(registry, k) ensures Touched(queue, k) {
      TouchedSuffix(queue, r.older, k);
    }
  }

  lemma WithoutKeepsGood<K(!new), V>(
    rs: seq<Refresh<K, V>>, n: nat, queue: seq<Effect<K, V>>, registry: map<K, V>)
    requires n < |rs| && AllGood(rs, queue, registry)
    ensures AllGood(Without(rs, n), queue, registry)
  {
  }

  lemma TellKeepsInv<K(!new), V>(w: World<K, V>, e: Effect<K, V>)
    requires Inv(w)
    ensures Inv(Next(w, Tell(e)))
  {
    if Settled(w) {
      TellKeepsQueueCurrent(w.queue, w.registry, e);
    }
    forall i | 0 <= i < |w.refreshes| ensures IsGood(w.refreshes[i], w.queue + [e], Affect(w.registry, e)) {
      TellKeepsGood(w.refreshes[i], w.queue, w.registry, e);
    }
    ReplayNext(w.cache, w.queue, e);
  }

  lemma PublishKeepsInv<K(!new), V>(w: World<K, V>)
    requires Inv(w) && w.polled.Some?
    ensures Inv(Next(w, PublishPolled))
  {
    var m, q := w.polled.value, w.queue + [Whole(w.polled.value)];
    forall i, clean | 0 <= i < |w.refreshes| ensures IsGood(w.refreshes[i].(clean := clean), q, w.registry) {
      SnapshotMakesGood(w.refreshes[i], clean, w.queue, w.registry, m);
    }
    forall i | 0 <= i < |w.refreshes| ensures IsGood(w.refreshes[i], q, w.registry) {
      SnapshotMakesGood(w.refreshes[i], w.refreshes[i].clean, w.queue, w.registry, m);
    }
    ReplayNext(w.cache, w.queue, Whole(m));
    ReplayNext(map[], w.queue, Whole(m));
  }

  lemma DeliverKeepsInv<K(!new), V>(w: World<K, V>)
    requires Inv(w) && w.queue != []
    ensures Inv(Next(w, Deliver))
  {
    if Settled(w) {
      DeliverKeepsQueueCurrent(w.queue, w.registry);
    }
    var rest := w.queue[1..];
    forall i | 0 <= i < |w.refreshes| ensures IsGood(Age(w.refreshes[i]), rest, w.registry) {
      DeliverKeepsGood(w.refreshes[i], w.queue, w.registry);
    }
    DeliverKeepsCoherent(w.cache, w.queue);
  }

  lemma CommitKeepsInv<K(!new), V>(w: World<K, V>, n: nat)
    requires Inv(w) && n < |w.refreshes|
    ensures Inv(Next(w, Commit(n)))
  {
    var r := w.refreshes[n];
    WithoutKeepsGood(w.refreshes, n, w.queue, w.registry);
    if r.clean && Settled(w) {
      GoodCatchesUp(r, w.queue, w.registry);
      CommitIsCoherentIff(r.read, w.queue, w.registry);
    }
  }

  lemma NextKeepsInv<K(!new), V>(w: World<K, V>, s: Step<K, V>)
    requires Inv(w)
    ensures Inv(Next(w, s))
  {
    match s
    case Tell(e) => TellKeepsInv(w, e);
    case Change(e) =>
    case Poll =>
    case PublishPolled => if w.polled.Some? { PublishKeepsInv(w); }
    case Deliver => if w.queue != [] { DeliverKeepsInv(w); }
    case Read =>
    case Commit(n) => if n < |w.refreshes| { CommitKeepsInv(w, n); }
    case Fail(n) => if n < |w.refreshes| { WithoutKeepsGood(w.refreshes, n, w.queue, w.registry); }
  }

  lemma {:induction false} RunKeepsInv<K(!new), V>(w: World<K, V>, ss: seq<Step<K, V>>)
    requires Inv(w)
    ensures Inv(Reached(w, ss))
  {
    if ss == [] {
    } else {
      RunKeepsInv(w, ss[..|ss| - 1]);
      NextKeepsInv(Reached(w, ss[..|ss| - 1]), ss[|ss| - 1]);
    }
  }

  /** Nothing is under way, and the cache holds anything, such as nothing yet. */
  function Started<K, V(==)>(registry: map<K, V>, cache: map<K, V>): World<K, V> {
    World(registry, [], cache, [], None, true, cache == registry)
  }

  /** From any cache on, in every interleaving of told and silent changes, snapshots, deliveries and any number of
      refreshes: a cache that is trusted is behind the registry by exactly the queued events. */
  lemma RunIsCoherent<K(!new), V>(registry: map<K, V>, cache: map<K, V>, ss: seq<Step<K, V>>)
    requires Reached(Started(registry, cache), ss).trusted
    ensures var w := Reached(Started(registry, cache), ss); Coherent(w) && (w.queue == [] ==> w.cache == w.registry)
  {
    RunKeepsInv(Started(registry, cache), ss);
  }

  /** In every reachable state, a clean refresh restores coherence, as does the first one of an empty cache, if and only
      if the queue ends in what the registry has; a settled one does. */
  lemma CleanRefreshHealsIff<K(!new), V>(registry: map<K, V>, cache: map<K, V>, ss: seq<Step<K, V>>, n: nat)
    requires var w := Reached(Started(registry, cache), ss); n < |w.refreshes| && w.refreshes[n].clean
    ensures var w := Reached(Started(registry, cache), ss);
            && (Coherent(Next(w, Commit(n))) <==> QueueIsCurrent(w.queue, w.registry))
            && (Settled(w) ==> QueueIsCurrent(w.queue, w.registry))
  {
    RunKeepsInv(Started(registry, cache), ss);
    CleanCommitIff(Reached(Started(registry, cache), ss), n);
  }

  lemma CleanCommitIff<K(!new), V>(w: World<K, V>, n: nat)
    requires Inv(w) && n < |w.refreshes| && w.refreshes[n].clean
    ensures Coherent(Next(w, Commit(n))) <==> QueueIsCurrent(w.queue, w.registry)
  {
    var r := w.refreshes[n];
    GoodCatchesUp(r, w.queue, w.registry);
    CommitIsCoherentIff(r.read, w.queue, w.registry);
  }

  /** Changes each told by their own event. */
  function Tells<K, V>(es: seq<Effect<K, V>>): (r: seq<Step<K, V>>)
    ensures |r| == |es| && forall i :: 0 <= i < |es| ==> r[i] == Tell(es[i])
  {
    seq(|es|, i requires 0 <= i < |es| => Tell(es[i]))
  }

  lemma {:induction false} OnlyTold<K(!new), V>(w: World<K, V>, es: seq<Effect<K, V>>)
    requires w.current
    ensures Reached(w, Tells(es)) == w.(registry := Replay(w.registry, es), queue := w.queue + es)
  {
    if es == [] {
    } else {
      var init, last := es[..|es| - 1], es[|es| - 1];
      OnlyTold(w, init);
      assert Tells(es)[..|es| - 1] == Tells(init);
      assert w.queue + init + [last] == w.queue + es;
    }
  }

  /** A refresh of any cache that only told changes overlap is trusted and brings the cache up to date: what it read,
      with their events delivered, is the registry. */
  lemma UndisturbedRefreshHeals<K(!new), V>(registry: map<K, V>, cache: map<K, V>, es: seq<Effect<K, V>>)
    ensures var w := Next(Reached(Next(Started(registry, cache), Read), Tells(es)), Commit(0));
            w.trusted && w.cache == registry && w.queue == es && w.registry == Replay(registry, es)
  {
    var r := Refresh(registry, 0, true);
    var w: World<K, V> := World(registry, [], cache, [r], None, true, cache == registry);
    assert Next(Started(registry, cache), Read) == w by {
      assert [] + [r] == [r];
    }
    OnlyTold(w, es);
    assert [] + es == es;
    CommitTheOnly(w.(registry := Replay(registry, es), queue := es), r);
  }

  lemma CommitTheOnly<K(!new), V>(w: World<K, V>, r: Refresh<K, V>)
    requires w.refreshes == [r] && r.clean && w.current
    ensures var w' := Next(w, Commit(0));
            w'.trusted && w'.cache == r.read && w'.queue == w.queue && w'.registry == w.registry
  {
  }

  /** An event that a silent change has outdated is still delivered, after the clean refresh that read the change. */
  lemma OutdatedEventUndoesARefresh<K(!new), V>(k: K, v: V, u: V)
    requires v != u
    ensures var w0 := Next(Next(Next(Started(map[], map[]), Tell(Set(k, v))), Change(Set(k, u))), Read);
            var w := Next(w0, Commit(0));
            w0.refreshes[0].clean && w.cache == w.registry == map[k := u] && Next(w, Deliver).cache == map[k := v]
  {
  }

  /** A published snapshot restores coherence, whatever the state, if and only if it is what the registry has. */
  lemma SnapshotHealsIff<K(!new), V>(w: World<K, V>)
    requires w.polled.Some?
    ensures Coherent(Next(w, PublishPolled)) <==> w.polled.value == w.registry
  {
    ReplayNext(w.cache, w.queue, Whole(w.polled.value));
  }

  /** An event delivered between a refresh's read and its commit is undone, and no event is left to repair that. */
  lemma OvertakenRefreshLosesAnEvent<K(!new), V>(registry: map<K, V>, k: K, v: V)
    requires At(registry, k) != Some(v)
    ensures var w0 := Started(registry, registry);
            var w := Next(Next(Next(Next(w0, Read), Tell(Set(k, v))), Deliver), Commit(0));
            w.queue == [] && w.registry == registry[k := v] && w.cache == registry != w.registry && !w.trusted
  {
  }

  /** With two refreshes under way the older may commit last: it takes back what the newer one brought. */
  lemma OlderRefreshCommitsLast<K(!new), V>(registry: map<K, V>, k: K, v: V)
    requires At(registry, k) != Some(v)
    ensures var w0 := Next(Next(Started(registry, registry), Read), Tell(Set(k, v)));
            var w := Next(Next(Next(Next(w0, Deliver), Read), Commit(1)), Commit(0));
            w.queue == [] && w.cache == registry != w.registry && !w.trusted
  {
  }

  // ---------- From lists to maps ----------

  function EffectOf<I, T, K, D>(c: Change<I, T, D>, f: Feed<I, T, K, D>): Effect<K, T> {
    match c
    case Written(i) => if f.expand(i) == [] then Nop else Set(f.key(f.expand(i)[0]), f.expand(i)[0])
    case Deleted(_, carried) => if carried.None? then Nop else Unset(f.key(carried.value))
  }

  lemma EqualMultisetsEqualMaps<T, K>(a: seq<T>, b: seq<T>, key: T -> K)
    requires multiset(a) == multiset(b) && Distinct(b, key)
    ensures Distinct(a, key) && AsMap(a, key) == AsMap(b, key)
  {
    SubsetDistinct(a, b, key);
    AsMapIs(b, key);
    assert forall x :: x in a <==> x in multiset(a);
    assert forall x :: x in b <==> x in multiset(b);
    MapsAgree(a, key, AsMap(b, key));
  }

  /** On a list cache of distinct identities, an event writes or removes one entry. */
  lemma EventIsItsEffect<I, T, K, D>(cache: seq<T>, c: Change<I, T, D>, f: Feed<I, T, K, D>)
    requires Distinct(cache, f.key)
    ensures AsMap(Told(cache, c, f), f.key) == Affect(AsMap(cache, f.key), EffectOf(c, f))
  {
    match c
    case Written(i) =>
      if f.expand(i) != [] { PutRefines(cache, f.expand(i)[0], f.key); }
    case Deleted(_, carried) =>
      if carried.Some? { RemoveRefines(cache, f.key(carried.value), f.key); }
  }

  /** A faithful change has the same effect on the recomputed list: it is a publication of the machine. */
  lemma FaithfulChangeIsItsEffect<I(!new), T(!new), K, D>(registry: seq<I>, c: Change<I, T, D>, f: Feed<I, T, K, D>)
    requires FeedModel.Lawful(f) && Distinct(registry, f.id) && Distinct(Recompute(registry, f), f.key)
    requires WellFormed(c, f) && Faithful(registry, c, f)
    ensures Distinct(Recompute(Changed(registry, c, f), f), f.key)
    ensures AsMap(Recompute(Changed(registry, c, f), f), f.key)
            == Affect(AsMap(Recompute(registry, f), f.key), EffectOf(c, f))
  {
    var cache := Recompute(registry, f);
    ChangeAgreesIff(cache, registry, c, f);
    ToldStaysDistinct(cache, c, f);
    EqualMultisetsEqualMaps(Recompute(Changed(registry, c, f), f), Told(cache, c, f), f.key);
    EventIsItsEffect(cache, c, f);
  }
}
