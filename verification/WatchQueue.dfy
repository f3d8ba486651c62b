/** The bounded event queue between a registry's goroutines and a watcher: any number of publishers, one
    receiver, callers of Close and goroutines that end the stream, all running at once. */
module WatchQueue {
  import opened Options
  import opened Selecting

  const CAPACITY: nat := 128

  /** What a publish returned. */
  datatype Outcome<E> = Outcome(e: E, ok: bool)

  /** The channel (`buffer`, `closed`), the context (`done`), the two once-flags, how often the context's cancel
      function and the channel's close were called, publishers inside their select, goroutines between the two
      once-sections of closeEvents, and what was returned and received so far. */
  datatype Queue<E> = Queue(
    buffer: seq<E>, closed: bool, done: bool, cancelOnce: bool, closeOnce: bool, cancels: nat, closes: nat,
    waiting: seq<E>, closing: nat, returned: seq<Outcome<E>>, received: seq<E>)

  function Empty<E>(): Queue<E> {
    Queue([], false, false, false, false, 0, 0, [], 0, [], [])
  }

  /** One atomic step of one of the goroutines; `n` is a publisher inside its select. */
  datatype Step<E> =
    | Enter(e: E) | Send(n: nat) | Panic(n: nat) | GiveUp(n: nat)
    | Receive | ParentCancels | Close | BeginCloseEvents | EndCloseEvents

  function CancelOnce<E>(q: Queue<E>): Queue<E> {
    if q.cancelOnce then q else q.(cancelOnce := true, done := true, cancels := q.cancels + 1)
  }

  function CloseOnce<E>(q: Queue<E>): Queue<E> {
    if q.closeOnce then q else q.(closeOnce := true, closed := true, closes := q.closes + 1)
  }

  function Return<E>(q: Queue<E>, n: nat, ok: bool): Queue<E>
    requires n < |q.waiting|
  {
    q.(waiting := q.waiting[..n] + q.waiting[n + 1..], returned := q.returned + [Outcome(q.waiting[n], ok)])
  }

  /** Whether the step can be taken: a send needs an open channel with room, and sending on a closed channel
      panics, which the publisher recovers from; the context's end is always a way out. */
  predicate Enabled<E>(q: Queue<E>, s: Step<E>) {
    match s
    case Send(n) => n < |q.waiting| && !q.closed && |q.buffer| < CAPACITY
    case Panic(n) => n < |q.waiting| && q.closed
    case GiveUp(n) => n < |q.waiting| && q.done
    case Receive => q.buffer != []
    case EndCloseEvents => q.closing > 0
    case _ => true
  }

  function Next<E>(q: Queue<E>, s: Step<E>): Queue<E>
    requires Enabled(q, s)
  {
    match s
    case Enter(e) => q.(waiting := q.waiting + [e])
    case Send(n) => Return(q, n, true).(buffer := q.buffer + [q.waiting[n]])
    case Panic(n) => Return(q, n, false)
    case GiveUp(n) => Return(q, n, false)
    case Receive => q.(buffer := q.buffer[1..], received := q.received + [q.buffer[0]])
    case ParentCancels => q.(done := true)
    case Close => CancelOnce(q)
    case BeginCloseEvents => CancelOnce(q).(closing := q.closing + 1)
    case EndCloseEvents => CloseOnce(q).(closing := q.closing - 1)
  }

  function Reached<E>(q: Queue<E>, ss: seq<Step<E>>): Option<Queue<E>> {
    if ss == [] then Some(q)
    else
      var before := Reached(q, ss[..|ss| - 1]);
      if before.Some? && Enabled(before.value, ss[|ss| - 1]) then Some(Next(before.value, ss[|ss| - 1])) else None
  }

  function Ok<E>(): Outcome<E> -> Option<E> {
    (o: Outcome<E>) => if o.ok then Some(o.e) else None
  }

  /** The events whose publish returned true, in that order. */
  function Accepted<E>(q: Queue<E>): seq<E> {
    Chosen(q.returned, Ok())
  }

  /** The steps on what callers see: a receive takes the first buffered event, a send appends one, and only the steps
      below change the buffer or what was received. */
  lemma NextMeans<E>(q: Queue<E>, s: Step<E>)
    requires Enabled(q, s)
    ensures var r := Next(q, s);
            && (s.Receive? ==> q.buffer == [q.buffer[0]] + r.buffer && r.received == q.received + [q.buffer[0]])
            && (!s.Receive? ==> r.received == q.received)
            && (s.Send? ==> !q.closed && |q.buffer| < 128 && r.buffer == q.buffer + [q.waiting[s.n]])
            && (!s.Receive? && !s.Send? ==> r.buffer == q.buffer)
            && (r.done <==> q.done || s.ParentCancels? || ((s.Close? || s.BeginCloseEvents?) && !q.cancelOnce))
            && (r.closed <==> q.closed || (s.EndCloseEvents? && !q.closeOnce))
  {
  }

  ghost predicate Inv<E>(q: Queue<E>) {
    && Accepted(q) == q.received + q.buffer
    && |q.buffer| <= CAPACITY
    && q.cancels == (if q.cancelOnce then 1 else 0)
    && q.closes == (if q.closeOnce then 1 else 0)
    && q.closed == q.closeOnce
    && (q.closed || q.closing > 0 ==> q.cancelOnce)
    && (q.cancelOnce ==> q.done)
  }

  lemma ReturnAccepts<E>(q: Queue<E>, n: nat, ok: bool)
    requires n < |q.waiting|
    ensures Accepted(Return(q, n, ok)) == Accepted(q) + if ok then [q.waiting[n]] else []
  {
    ChosenConcat(q.returned, [Outcome(q.waiting[n], ok)], Ok());
  }

  lemma NextKeepsInv<E>(q: Queue<E>, s: Step<E>)
    requires Inv(q) && Enabled(q, s)
    ensures Inv(Next(q, s))
  {
    match s
    case Send(n) => ReturnAccepts(q, n, true);
    case Panic(n) => ReturnAccepts(q, n, false);
    case GiveUp(n) => ReturnAccepts(q, n, false);
    case Receive => assert q.buffer == [q.buffer[0]] + q.buffer[1..];
    case _ =>
  }

  /** In every interleaving: the accepted events are those received, then those buffered, in order and none
      more than the capacity; the context is cancelled and the channel closed at most once each, and closed only
      once cancelled. */
  lemma {:induction false} RunKeepsInv<E>(q: Queue<E>, ss: seq<Step<E>>)
    requires Inv(q) && Reached(q, ss).Some?
    ensures Inv(Reached(q, ss).value)
  {
    if ss == [] {
    } else {
      RunKeepsInv(q, ss[..|ss| - 1]);
      NextKeepsInv(Reached(q, ss[..|ss| - 1]).value, ss[|ss| - 1]);
    }
  }

  /** Once the channel is closed nothing more is accepted and it stays closed; what is received is a prefix
      of what was accepted, and all of it once the buffer is empty. */
  lemma {:induction false} NothingIsAcceptedAfterClosing<E>(q: Queue<E>, ss: seq<Step<E>>)
    requires Inv(q) && q.closed && Reached(q, ss).Some?
    ensures var r := Reached(q, ss).value;
            r.closed && Accepted(r) == Accepted(q) && (r.buffer == [] ==> r.received == Accepted(q))
  {
    RunKeepsInv(q, ss);
    if ss != [] {
      var s := ss[|ss| - 1];
      NothingIsAcceptedAfterClosing(q, ss[..|ss| - 1]);
      var p := Reached(q, ss[..|ss| - 1]).value;
      if s.Panic? || s.GiveUp? { ReturnAccepts(p, s.n, false); }
    } else {
      assert q.received + [] == q.received;
    }
  }

  /** The events whose publish returned or is still inside its select. */
  ghost function Published<E>(q: Queue<E>): multiset<E> {
    multiset(Events(q.returned)) + multiset(q.waiting)
  }

  lemma NextPublishes<E>(q: Queue<E>, s: Step<E>)
    requires Enabled(q, s)
    ensures Published(Next(q, s)) == Published(q) + multiset(Shown(Entering()(s)))
  {
    match s
    case Send(n) => ReturnMoves(q, n, true);
    case Panic(n) => ReturnMoves(q, n, false);
    case GiveUp(n) => ReturnMoves(q, n, false);
    case _ =>
  }

  /** Every publish that entered its select returns at most once and none is lost: panics never get out. */
  lemma {:induction false} EveryPublishReturnsOnce<E>(q: Queue<E>, ss: seq<Step<E>>)
    requires Reached(q, ss).Some?
    ensures Published(Reached(q, ss).value) == Published(q) + multiset(Entered(ss))
  {
    if ss == [] {
    } else {
      var init, s := ss[..|ss| - 1], ss[|ss| - 1];
      EveryPublishReturnsOnce(q, init);
      NextPublishes(Reached(q, init).value, s);
      assert ss[..|ss|] == ss;
      ChosenNext(ss, |ss| - 1, Entering());
    }
  }

  function Events<E>(os: seq<Outcome<E>>): seq<E> {
    Chosen(os, Event())
  }

  function Event<E>(): Outcome<E> -> Option<E> {
    (o: Outcome<E>) => Some(o.e)
  }

  function Entering<E>(): Step<E> -> Option<E> {
    (s: Step<E>) => if s.Enter? then Some(s.e) else None
  }

  function Entered<E>(ss: seq<Step<E>>): seq<E> {
    Chosen(ss, Entering())
  }

  lemma ReturnMoves<E>(q: Queue<E>, n: nat, ok: bool)
    requires n < |q.waiting|
    ensures var r := Return(q, n, ok);
            multiset(Events(r.returned)) + multiset(r.waiting) == multiset(Events(q.returned)) + multiset(q.waiting)
  {
    var e, before, after := q.waiting[n], q.waiting[..n], q.waiting[n + 1..];
    ChosenConcat(q.returned, [Outcome(e, ok)], Event());
    assert Events(Return(q, n, ok).returned) == Events(q.returned) + [e];
    assert q.waiting == before + [e] + after;
    ToTheFront(before, [e], after);
    var a, b, c := multiset(Events(q.returned)), multiset{e}, multiset(before + after);
    assert (a + b) + c == a + (b + c);
  }

  /** The end of the context does not stop a send at once: select may still choose the channel. */
  lemma PublishMayStillSucceedAfterClose<E>(e: E)
    ensures var r := Reached(Empty(), [Close, Enter(e), Send(0)]);
            r.Some? && r.value.done && Accepted(r.value) == [e] && r.value.buffer == [e]
  {
    var q: Queue<E> := Empty();
    var s1, s2, s3: seq<Step<E>> := [Close], [Close, Enter(e)], [Close, Enter(e), Send(0)];
    assert s1[..0] == [] && s2[..1] == s1 && s3[..2] == s2;
    assert Reached(q, s1) == Some(CancelOnce(q));
    var q2 := CancelOnce(q).(waiting := [e]);
    assert CancelOnce(q).waiting + [e] == [e];
    assert Reached(q, s2) == Some(q2);
    ReturnAccepts(q2, 0, true);
  }

  // ---------- The watcher ----------

  /** The watcher's fields and, as a ghost, the whole queue they belong to. */
  class ChannelWatcher<E(0)> {
    var events: seq<E>
    var closed: bool
    var done: bool
    var cancelled: bool
    var ended: bool
    ghost var model: Queue<E>

    ghost predicate Valid() reads this {
      Inv(model) && events == model.buffer && closed == model.closed && done == model.done
      && cancelled == model.cancelOnce && ended == model.closeOnce
    }

    constructor ()
      ensures Valid() && model == Empty()
    {
      events, closed, done, cancelled, ended := [], false, false, false, false;
      model := Empty();
    }

    /** The select of the publisher of `e`; `chooseDone` is the choice when both its cases are ready. A panic on the
        closed channel is recovered. None while no case is ready. */
    method Publish(e: E, ghost n: nat, chooseDone: bool) returns (ok: Option<bool>)
      requires Valid() && n < |model.waiting| && model.waiting[n] == e
      modifies this
      ensures Valid()
      ensures ok.None? <==> !old(closed) && !old(done) && |old(events)| >= CAPACITY
      ensures ok.None? ==> model == old(model)
      ensures ok == Some(true) ==> Enabled(old(model), Send(n)) && model == Next(old(model), Send(n))
      ensures ok == Some(false) ==> (old(closed) || old(done)) && model == Return(old(model), n, false)
      ensures old(closed) ==> ok == Some(false)
      ensures !old(closed) && !old(done) && |old(events)| < 128 ==> ok == Some(true)
      ensures !old(closed) && !old(done) && |old(events)| >= 128 ==> ok == None
      ensures events == old(events) + if ok == Some(true) then [e] else []
      ensures closed == old(closed) && done == old(done)
    {
      var sendReady := closed || |events| < CAPACITY;
      if done && (chooseDone || !sendReady) {
        NextKeepsInv(model, GiveUp(n));
        model := Next(model, GiveUp(n));
        return Some(false);
      }
      if !sendReady { return None; }
      if closed {
        NextKeepsInv(model, Panic(n));
        model := Next(model, Panic(n));
        return Some(false);
      }
      NextKeepsInv(model, Send(n));
      events := events + [e];
      model := Next(model, Send(n));
      return Some(true);
    }

    /** Cancels the context the first time, and only then. */
    method Close()
      requires Valid()
      modifies this
      ensures Valid() && model == CancelOnce(old(model))
      ensures cancelled && done == (old(done) || !old(cancelled))
      ensures events == old(events) && closed == old(closed) && ended == old(ended)
    {
      NextKeepsInv(model, Step.Close);
      if !cancelled {
        cancelled, done := true, true;
      }
      model := CancelOnce(model);
    }

    /** Cancels, then closes the channel, each the first time only. */
    method CloseEvents()
      requires Valid()
      modifies this
      ensures Valid() && closed && cancelled && ended && model == CloseOnce(CancelOnce(old(model)))
      ensures done == (old(done) || !old(cancelled)) && events == old(events)
    {
      Close();
      if !ended {
        ended, closed := true, true;
      }
      model := CloseOnce(model);
    }
  }
}
