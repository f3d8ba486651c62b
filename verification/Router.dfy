/** The HTTP router: route paths, route groups, middleware order, and the split of the
    interceptor chain around the binder of a typed route. */
module Router {
  import opened Options
  import opened Text
  import opened Interceptors

  // ---------- Paths ----------

  /** The source also guards against an empty join, which the inner slash rules out. */
  function JoinPath(prefix: string, path: string): (r: string)
    ensures r != "" && r[0] == '/'
  {
    var prefix := if prefix == "" then "/" else prefix;
    var path := if path == "" then "/" else path;
    Rooted(TrimRight(prefix, SLASH) + "/" + TrimLeft(path, SLASH))
  }

  function Rooted(s: string): string {
    if s == "" || s[0] == '/' then s else "/" + s
  }

  lemma SlashIsTrimmed()
    ensures TrimRight("/", SLASH) == "" && TrimLeft("/", SLASH) == ""
  {
  }

  lemma JoinPathForm(prefix: string, path: string)
    ensures JoinPath(prefix, path) == Rooted(TrimRight(prefix, SLASH)) + ("/" + TrimLeft(path, SLASH))
  {
    SlashForNothing(prefix);
    SlashForNothing(path);
    RootedConcat(TrimRight(prefix, SLASH), TrimLeft(path, SLASH));
  }

  lemma SlashForNothing(s: string)
    ensures TrimRight(if s == "" then "/" else s, SLASH) == TrimRight(s, SLASH)
    ensures TrimLeft(if s == "" then "/" else s, SLASH) == TrimLeft(s, SLASH)
  {
    if s == "" {
      SlashIsTrimmed();
    }
  }

  lemma RootedConcat(head: string, tail: string)
    ensures Rooted(head + "/" + tail) == Rooted(head) + ("/" + tail)
  {
    if head == "" || head[0] == '/' {
      assert head + "/" + tail == head + ("/" + tail);
    } else {
      assert "/" + (head + "/" + tail) == "/" + head + ("/" + tail);
    }
  }

  lemma RootedIsTrimmed(s: string)
    ensures TrimRight(Rooted(TrimRight(s, SLASH)), SLASH) == Rooted(TrimRight(s, SLASH))
  {
    var t := TrimRight(s, SLASH);
    TrimmedOnceIsEnough(s, SLASH);
    if t != "" && t[0] != '/' {
      TrimRightConcat("/", t, SLASH);
    }
  }

  lemma RootedTail(s: string)
    ensures TrimLeft(Rooted(s), SLASH) == TrimLeft(s, SLASH)
  {
    if s != "" && s[0] != '/' {
      SlashIsTrimmed();
      TrimLeftConcat("/", s, SLASH);
    }
  }

  /** What a join looks like from its right: the tail after trimming leading slashes. */
  lemma JoinPathTail(b: string, c: string)
    ensures TrimLeft(JoinPath(b, c), SLASH) ==
            if TrimLeft(b, SLASH) == "" then TrimLeft(c, SLASH)
            else TrimRight(TrimLeft(b, SLASH), SLASH) + ("/" + TrimLeft(c, SLASH))
  {
    var r, c' := TrimRight(b, SLASH), TrimLeft(c, SLASH);
    JoinPathForm(b, c);
    TrimLeftConcat(Rooted(r), "/" + c', SLASH);
    assert TrimLeft(Rooted(r), SLASH) == TrimLeft(r, SLASH) by { RootedTail(r); }
    TrimsCommute(b, SLASH);
    TrimsCommute(r, SLASH);
    assert TrimLeft("/" + c', SLASH) == c' by {
      SlashIsTrimmed();
      TrimLeftConcat("/", c', SLASH);
      TrimmedOnceIsEnough(c, SLASH);
    }
    TrimmedOnceIsEnough(b, SLASH);
  }

  lemma TrimmedOnceIsEnough(s: string, cut: set<char>)
    ensures TrimLeft(TrimLeft(s, cut), cut) == TrimLeft(s, cut)
    ensures TrimRight(TrimRight(s, cut), cut) == TrimRight(s, cut)
  {
  }

  /** What a join looks like from its left: the rooted head after trimming trailing slashes. */
  lemma JoinPathHead(a: string, b: string)
    ensures var x := Rooted(TrimRight(a, SLASH));
            Rooted(TrimRight(JoinPath(a, b), SLASH)) ==
            if TrimLeft(b, SLASH) == "" then x else x + ("/" + TrimRight(TrimLeft(b, SLASH), SLASH))
  {
    var x, b' := Rooted(TrimRight(a, SLASH)), TrimLeft(b, SLASH);
    JoinPathForm(a, b);
    TrimHead(x, b');
    RootedIsTrimmed(a);
    RootedTwice(TrimRight(a, SLASH), "/" + TrimRight(b', SLASH));
    NothingLeft(b);
  }

  lemma NothingLeft(b: string)
    ensures TrimRight(TrimLeft(b, SLASH), SLASH) == "" <==> TrimLeft(b, SLASH) == ""
  {
    TrimmedOnceIsEnough(b, SLASH);
    TrimsCommute(TrimLeft(b, SLASH), SLASH);
  }

  lemma RootedTwice(t: string, tail: string)
    requires tail != "" && tail[0] == '/'
    ensures Rooted(Rooted(t)) == Rooted(t)
    ensures Rooted(Rooted(t) + tail) == Rooted(t) + tail
  {
  }

  lemma TrimHead(x: string, b: string)
    ensures TrimRight(x + ("/" + b), SLASH) ==
            if TrimRight(b, SLASH) == "" then TrimRight(x, SLASH) else x + ("/" + TrimRight(b, SLASH))
  {
    SlashIsTrimmed();
    TrimRightConcat("/", b, SLASH);
    TrimRightConcat(x, "/" + b, SLASH);
  }

  lemma Associate(x: string, s: string, m: string, c: string)
    ensures x + (s + m) + (s + c) == x + (s + (m + (s + c)))
  {
  }

  /** Joining paths is associative. */
  lemma JoinPathAssociative(a: string, b: string, c: string)
    ensures JoinPath(JoinPath(a, b), c) == JoinPath(a, JoinPath(b, c))
  {
    var x, b', c' := Rooted(TrimRight(a, SLASH)), TrimLeft(b, SLASH), TrimLeft(c, SLASH);
    var m := TrimRight(b', SLASH);
    var slash := "/";
    JoinPathHead(a, b);
    JoinPathTail(b, c);
    JoinPathForm(JoinPath(a, b), c);
    JoinPathForm(a, JoinPath(b, c));
    Associate(x, slash, m, c');
  }

  /** The prefix of a group nested in `groups` under a router with prefix `prefix`. */
  function NestedPrefix(prefix: string, groups: seq<string>): string {
    if groups == [] then prefix
    else JoinPath(NestedPrefix(prefix, groups[..|groups| - 1]), groups[|groups| - 1])
  }

  function FlatPrefix(groups: seq<string>): string
    requires groups != []
  {
    if |groups| == 1 then groups[0] else JoinPath(FlatPrefix(groups[..|groups| - 1]), groups[|groups| - 1])
  }

  /** Any nesting of groups is one flat group. */
  lemma {:induction false} NestedGroupsAreFlat(prefix: string, groups: seq<string>)
    requires groups != []
    ensures NestedPrefix(prefix, groups) == JoinPath(prefix, FlatPrefix(groups))
  {
    var init, last := groups[..|groups| - 1], groups[|groups| - 1];
    if init == [] {
      assert NestedPrefix(prefix, init) == prefix;
    } else {
      NestedGroupsAreFlat(prefix, init);
      JoinPathAssociative(prefix, FlatPrefix(init), last);
    }
  }

  // ---------- Middleware ----------

  type Middleware<!S> = Handler<S> -> Handler<S>

  /** The first middleware is the outermost; missing ones are skipped. */
  function Around<S>(mws: seq<Option<Middleware<S>>>, final: Handler<S>): Handler<S> {
    if mws == [] then final
    else
      var inner := Around(mws[1..], final);
      if mws[0].None? then inner else (mws[0].value)(inner)
  }

  method Chain<S>(mws: seq<Option<Middleware<S>>>, final: Handler<S>) returns (handler: Handler<S>)
    ensures handler == Around(mws, final)
  {
    handler := final;
    var i := |mws|;
    while i > 0
      invariant 0 <= i <= |mws|
      invariant handler == Around(mws[i..], final)
    {
      i := i - 1;
      assert mws[i..][1..] == mws[i + 1..];
      if mws[i].Some? {
        handler := (mws[i].value)(handler);
      }
    }
    assert mws[0..] == mws;
  }

  lemma {:induction false} AroundConcat<S>(
    a: seq<Option<Middleware<S>>>, b: seq<Option<Middleware<S>>>, final: Handler<S>)
    ensures Around(a + b, final) == Around(a, Around(b, final))
  {
    if a == [] {
      assert a + b == b;
    } else {
      assert (a + b)[1..] == a[1..] + b;
      AroundConcat(a[1..], b, final);
    }
  }

  // ---------- Routes and groups ----------

  datatype Bound<+S> = Bound(state: S) | Rejected(state: S)

  /** A plain endpoint, or a typed one: a binder, the route's own middlewares, the typed handler and
      what turns the typed outcome into a response. */
  datatype Endpoint<!S> =
    | Plain(run: Handler<S>)
    | Typed(bind: S -> Bound<S>, middlewares: seq<Option<Middleware<S>>>, handle: Handler<S>, encode: Handler<S>)

  datatype Route<!S> = Route(
    verb: string, path: string, endpoint: Endpoint<S>, middlewares: seq<Option<Middleware<S>>>,
    businessInEndpoint: bool)

  class Router<!S> {
    const parent: Router?<S>
    const prefix: string
    const groupMws: seq<Option<Middleware<S>>>
    var middlewares: seq<Option<Middleware<S>>>
    var routes: seq<Route<S>>

    predicate Valid() {
      parent != null ==> parent.parent == null
    }

    function Root(): Router<S>
      requires Valid()
    {
      if parent == null then this else parent
    }

    constructor ()
      ensures Valid() && parent == null && prefix == "" && groupMws == [] && middlewares == [] && routes == []
    {
      parent, prefix, groupMws := null, "", [];
      middlewares, routes := [], [];
    }

    constructor Child(parent: Router<S>, prefix: string, groupMws: seq<Option<Middleware<S>>>)
      ensures this.parent == parent && this.prefix == prefix && this.groupMws == groupMws
      ensures middlewares == [] && routes == []
    {
      this.parent, this.prefix, this.groupMws := parent, prefix, groupMws;
      middlewares, routes := [], [];
    }

    method Use(mws: seq<Option<Middleware<S>>>)
      requires Valid()
      modifies Root()
      ensures Root().middlewares == old(Root().middlewares) + mws
      ensures Root().routes == old(Root().routes)
    {
      Root().middlewares := Root().middlewares + mws;
    }

    /** A typed endpoint runs its own middlewares itself, so its route carries only those of its groups. */
    method Handle(verb: string, path: string, endpoint: Endpoint<S>, mws: seq<Option<Middleware<S>>>)
      requires Valid() && (endpoint.Typed? ==> mws == [])
      modifies Root()
      ensures Root().middlewares == old(Root().middlewares)
      ensures Root().routes == old(Root().routes)
              + [Route(verb, JoinPath(prefix, path), endpoint, groupMws + mws, endpoint.Typed?)]
    {
      Root().routes := Root().routes + [Route(verb, JoinPath(prefix, path), endpoint, groupMws + mws, endpoint.Typed?)];
    }

    method Group(prefix: string, mws: seq<Option<Middleware<S>>>) returns (group: Router<S>)
      requires Valid()
      ensures fresh(group) && group.Valid() && group.Root() == Root()
      ensures group.prefix == JoinPath(this.prefix, prefix) && group.groupMws == groupMws + mws
    {
      group := new Router.Child(Root(), JoinPath(this.prefix, prefix), groupMws + mws);
    }
  }

  /** Registering through two nested groups is registering through one flat group. */
  method HandleNested<S>(root: Router<S>, outer: string, outerMws: seq<Option<Middleware<S>>>,
                         inner: string, innerMws: seq<Option<Middleware<S>>>,
                         verb: string, path: string, run: Handler<S>, mws: seq<Option<Middleware<S>>>)
    requires root.Valid() && root.parent == null && root.prefix == "" && root.groupMws == []
    modifies root
    ensures root.routes == old(root.routes)
            + [Route(verb, JoinPath(JoinPath("", JoinPath(outer, inner)), path), Plain(run), outerMws + innerMws + mws,
              false)]
  {
    var g := root.Group(outer, outerMws);
    var h := g.Group(inner, innerMws);
    h.Handle(verb, path, Plain(run), mws);
    JoinPathAssociative("", outer, inner);
    assert [] + outerMws == outerMws;
  }

  // ---------- Serving a request ----------

  /** The chains a typed route is split into, from the definitions registered. */
  function PreDecode<S>(registered: seq<Definition<S>>): seq<Definition<S>> {
    Chosen(registered, HttpServer, true, false, PRE_DECODE_STAGES)
  }

  function Decode<S>(registered: seq<Definition<S>>): seq<Definition<S>> {
    Chosen(registered, HttpServer, true, false, DECODE_STAGES)
  }

  function BusinessOnly<S>(registered: seq<Definition<S>>): seq<Definition<S>> {
    Chosen(registered, HttpServer, false, true, SERVER_STAGES)
  }

  function Bind<S>(bind: S -> Bound<S>, then_: Handler<S>): Handler<S> {
    (s: S) => match bind(s) case Bound(t) => then_(t) case Rejected(t) => t
  }

  function Then<S>(first: Handler<S>, second: Handler<S>): Handler<S> {
    (s: S) => second(first(s))
  }

  /** What serving a route means: the full chain around a plain endpoint; for a typed one the chain is
      interrupted by the middlewares and the binder right before the decode stage. The outer part comes from the
      registry of the router's snapshot, the inner one from the registry the router has when the endpoint runs. */
  function Served<S>(outer: seq<Definition<S>>, inner: seq<Definition<S>>, mws: seq<Option<Middleware<S>>>,
                     route: Route<S>): Handler<S> {
    match route.endpoint
    case Plain(run) => Fold(Listing(outer, HttpServer), Around(mws + route.middlewares, run))
    case Typed(bind, own, handle, encode) =>
      var typed := Fold(Decode(inner) + BusinessOnly(inner), Around(own, handle));
      Fold(PreDecode(outer), Around(mws + route.middlewares, Bind(bind, Then(typed, encode))))
  }

  ghost function RegisteredIn<S>(registry: Registry?<S>): seq<Definition<S>>
    reads registry
  {
    if registry == null then [] else registry.registered
  }

  /** The endpoint of a typed route: its own middlewares, the business chain and the decode chain around its handler. */
  method TypedEndpoint<S>(registry: Registry?<S>, own: seq<Option<Middleware<S>>>, handle: Handler<S>)
    returns (typed: Handler<S>)
    requires registry != null ==> registry.Valid()
    ensures typed == Fold(Decode(RegisteredIn(registry)) + BusinessOnly(RegisteredIn(registry)), Around(own, handle))
  {
    EmptyRegistry<S>();
    typed := Chain(own, handle);
    if registry != null {
      typed := registry.ChainWithStages(HttpServer, typed, false, true, SERVER_STAGES);
      typed := registry.ChainWithStages(HttpServer, typed, true, false, DECODE_STAGES);
      FoldConcat(Decode(registry.registered), BusinessOnly(registry.registered), Around(own, handle));
    }
  }

  /** The chain around a route: the interceptors before the binder, or all of them when there is none. */
  method OuterChain<S>(registry: Registry?<S>, businessInEndpoint: bool, final: Handler<S>)
    returns (handler: Handler<S>)
    requires registry != null ==> registry.Valid()
    ensures var registered := RegisteredIn(registry);
            handler == Fold(if businessInEndpoint then PreDecode(registered)
              else Listing(registered, HttpServer), final)
  {
    EmptyRegistry<S>();
    handler := final;
    if registry != null {
      if businessInEndpoint {
        handler := registry.ChainWithStages(HttpServer, handler, true, false, PRE_DECODE_STAGES);
      } else {
        handler := registry.ChainWithStages(HttpServer, handler, true, true, SERVER_STAGES);
      }
    }
  }

  /** Serves `route` at state `s`, with the registries as the request finds them: `outer` in the router's snapshot,
      `inner` in the router itself. */
  method Execute<S>(s: S, outer: Registry?<S>, inner: Registry?<S>, mws: seq<Option<Middleware<S>>>, route: Route<S>)
    returns (r: S)
    requires (outer != null ==> outer.Valid()) && (inner != null ==> inner.Valid())
    requires route.businessInEndpoint <==> route.endpoint.Typed?
    ensures r == Served(RegisteredIn(outer), RegisteredIn(inner), mws, route)(s)
  {
    var endpoint: Handler<S>;
    match route.endpoint {
      case Plain(run) => endpoint := run;
      case Typed(bind, own, handle, encode) =>
        var typed := TypedEndpoint(inner, own, handle);
        endpoint := Bind(bind, Then(typed, encode));
    }
    var handler := Chain(mws + route.middlewares, endpoint);
    handler := OuterChain(outer, route.businessInEndpoint, handler);
    r := handler(s);
  }

  lemma EmptyRegistry<S>()
    ensures PreDecode<S>([]) == Decode<S>([]) == BusinessOnly<S>([]) == Listing<S>([], HttpServer) == []
  {
    NothingChosen<S>(true, false, PRE_DECODE_STAGES);
    NothingChosen<S>(true, false, DECODE_STAGES);
    NothingChosen<S>(false, true, SERVER_STAGES);
    NothingChosen<S>(true, true, SERVER_STAGES);
  }

  lemma {:induction false} NothingChosen<S>(includeFramework: bool, includeBusiness: bool, stages: seq<Stage>)
    ensures Chosen<S>([], HttpServer, includeFramework, includeBusiness, stages) == []
  {
    if stages == [] {
    } else {
      NothingChosen<S>(includeFramework, includeBusiness, stages[..|stages| - 1]);
    }
  }

  // ---------- The split preserves the chain ----------

  lemma {:induction false} ChosenConcat<S>(
    registered: seq<Definition<S>>, kind: Kind, f: bool, b: bool, x: seq<Stage>, y: seq<Stage>)
    ensures Chosen(registered, kind, f, b, x + y)
            == Chosen(registered, kind, f, b, x) + Chosen(registered, kind, f, b, y)
    decreases |y|
  {
    if y == [] {
      assert x + y == x;
      assert Chosen(registered, kind, f, b, x) + [] == Chosen(registered, kind, f, b, x);
    } else {
      var z, stage := y[..|y| - 1], y[|y| - 1];
      ChosenConcat(registered, kind, f, b, x, z);
      ChosenConcatNext(registered, kind, f, b, x, y, z, stage);
    }
  }

  lemma ChosenConcatNext<S>(registered: seq<Definition<S>>, kind: Kind, f: bool, b: bool, x: seq<Stage>, y: seq<Stage>,
                            z: seq<Stage>, stage: Stage)
    requires y == z + [stage]
    requires Chosen(registered, kind, f, b, x + z)
             == Chosen(registered, kind, f, b, x) + Chosen(registered, kind, f, b, z)
    ensures Chosen(registered, kind, f, b, x + y)
            == Chosen(registered, kind, f, b, x) + Chosen(registered, kind, f, b, y)
  {
    ChosenLast(registered, kind, f, b, x + y, x + z, stage);
    ChosenLast(registered, kind, f, b, y, z, stage);
    ThreePieces(Chosen(registered, kind, f, b, x), Chosen(registered, kind, f, b, z),
                Contribution(registered, kind, stage, f, b));
  }

  lemma ChosenLast<S>(registered: seq<Definition<S>>, kind: Kind, f: bool, b: bool, all: seq<Stage>,
                      init: seq<Stage>, stage: Stage)
    requires all == init + [stage]
    ensures Chosen(registered, kind, f, b, all)
            == Chosen(registered, kind, f, b, init) + Contribution(registered, kind, stage, f, b)
  {
    assert all[..|all| - 1] == init;
  }

  /** Without the business stage, leaving business definitions out changes nothing. */
  lemma {:induction false} NoBusinessStage<S>(registered: seq<Definition<S>>, kind: Kind, stages: seq<Stage>)
    requires Business !in stages
    ensures Chosen(registered, kind, true, false, stages) == Chosen(registered, kind, true, true, stages)
    ensures Chosen(registered, kind, false, true, stages) == []
  {
    if stages == [] {
    } else {
      NoBusinessStage(registered, kind, stages[..|stages| - 1]);
    }
  }

  lemma ChosenOfThree<S>(
    registered: seq<Definition<S>>, kind: Kind, f: bool, p: seq<Stage>, d: seq<Stage>, z: seq<Stage>)
    ensures Chosen(registered, kind, f, true, p + d + z)
            == Chosen(registered, kind, f, true, p) + Chosen(registered, kind, f, true, d)
               + Chosen(registered, kind, f, true, z)
  {
    ChosenConcat(registered, kind, f, true, p + d, z);
    ChosenConcat(registered, kind, f, true, p, d);
  }

  lemma SplitAtBusiness<S>(registered: seq<Definition<S>>, kind: Kind, p: seq<Stage>, d: seq<Stage>, all: seq<Stage>)
    requires Business !in p && Business !in d && all == p + d + [Business]
    ensures Chosen(registered, kind, true, false, p)
            + (Chosen(registered, kind, true, false, d) + Chosen(registered, kind, false, true, all))
            == Chosen(registered, kind, true, true, all)
  {
    ChosenOfThree(registered, kind, true, p, d, [Business]);
    ChosenOfThree(registered, kind, false, p, d, [Business]);
    NoBusinessStage(registered, kind, p);
    NoBusinessStage(registered, kind, d);
    OneStage(registered, kind);
    ThreePieces(Chosen(registered, kind, true, true, p), Chosen(registered, kind, true, true, d),
                Chosen(registered, kind, true, true, [Business]));
  }

  lemma ThreePieces<T>(x: seq<T>, y: seq<T>, z: seq<T>)
    ensures [] + [] + z == z && x + (y + z) == x + y + z
  {
  }

  /** The three pieces of a typed route list the same interceptors, each once and in the same order, as the full
      chain. */
  lemma SplitListsTheFullChain<S>(registered: seq<Definition<S>>)
    ensures PreDecode(registered) + (Decode(registered) + BusinessOnly(registered)) == Listing(registered, HttpServer)
  {
    assert SERVER_STAGES == PRE_DECODE_STAGES + DECODE_STAGES + [Business];
    SplitAtBusiness(registered, HttpServer, PRE_DECODE_STAGES, DECODE_STAGES, SERVER_STAGES);
  }

  lemma OneStage<S>(registered: seq<Definition<S>>, kind: Kind)
    ensures Chosen(registered, kind, false, true, [Business]) == Chosen(registered, kind, true, true, [Business])
  {
    assert [Business][..0] == [];
  }

  /** A typed route with nothing between the two halves is served exactly like a plain route: composing
      the folded pieces is folding the full chain. */
  lemma TypedRouteRunsTheFullChain<S>(
    registered: seq<Definition<S>>, mws: seq<Option<Middleware<S>>>, handle: Handler<S>)
    ensures Fold(PreDecode(registered), Fold(Decode(registered), Fold(BusinessOnly(registered), Around(mws, handle))))
            == Fold(Listing(registered, HttpServer), Around(mws, handle))
  {
    SplitListsTheFullChain(registered);
    FoldConcat(Decode(registered), BusinessOnly(registered), Around(mws, handle));
    FoldConcat(PreDecode(registered), Decode(registered) + BusinessOnly(registered), Around(mws, handle));
  }

  // ---------- Two registries ----------

  lemma ContributionSlots<S>(registered: seq<Definition<S>>, kind: Kind, f: bool, b: bool, stage: Stage)
    ensures forall d | d in Contribution(registered, kind, stage, f, b) ::
              d in registered && SlotOf(d) == SlotAt(kind, stage)
  {
    var kept := Sorting.Filter(registered, InSlot(SlotAt(kind, stage)));
    Sorting.StableSortIsStable(kept, ByOrder());
    forall d | d in Contribution(registered, kind, stage, f, b) ensures d in kept {
      assert d in multiset(Sorting.StableSort(kept, ByOrder()));
    }
  }

  lemma OneStageIsChosen<S>(registered: seq<Definition<S>>, f: bool, b: bool, stage: Stage)
    ensures Chosen(registered, HttpServer, f, b, [stage]) == Contribution(registered, HttpServer, stage, f, b)
  {
    assert [stage][..0] == [];
  }

  lemma BusinessOnlyIsOneStage<S>(registered: seq<Definition<S>>)
    ensures BusinessOnly(registered) == Contribution(registered, HttpServer, Business, false, true)
  {
    var p, d, z := PRE_DECODE_STAGES, DECODE_STAGES, [Business];
    assert SERVER_STAGES == p + d + z;
    ChosenOfThree(registered, HttpServer, false, p, d, z);
    NoBusinessStage(registered, HttpServer, p);
    NoBusinessStage(registered, HttpServer, d);
    OneStageIsChosen(registered, false, true, Business);
  }

  function AtDecode<S>(): Definition<S> -> bool {
    (d: Definition<S>) => d.stage == DecodeValidate
  }

  lemma InnerPieces<S>(registered: seq<Definition<S>>)
    requires AllValid(registered)
    ensures forall d | d in Decode(registered) :: AtDecode()(d)
    ensures forall d | d in BusinessOnly(registered) :: !AtDecode()(d)
  {
    OneStageIsChosen(registered, true, false, DecodeValidate);
    ContributionSlots(registered, HttpServer, true, false, DecodeValidate);
    BusinessOnlyIsOneStage(registered);
    ContributionSlots(registered, HttpServer, false, true, Business);
  }

  lemma {:induction false} KeepsAllOrNone<T>(s: seq<T>, p: T -> bool)
    ensures (forall x | x in s :: p(x)) ==> Sorting.Filter(s, p) == s
    ensures (forall x | x in s :: !p(x)) ==> Sorting.Filter(s, p) == []
  {
    if s == [] {
    } else {
      KeepsAllOrNone(s[1..], p);
      assert s == [s[0]] + s[1..];
    }
  }

  /** Where a predicate tells the halves apart, equal lists have equal halves. */
  lemma HalvesAreEqualIff<T>(x: seq<T>, y: seq<T>, x': seq<T>, y': seq<T>, p: T -> bool)
    requires (forall e | e in x :: p(e)) && (forall e | e in x' :: p(e))
    requires (forall e | e in y :: !p(e)) && (forall e | e in y' :: !p(e))
    ensures x + y == x' + y' <==> x == x' && y == y'
  {
    KeepsAllOrNone(x, p);
    KeepsAllOrNone(y, p);
    KeepsAllOrNone(x', p);
    KeepsAllOrNone(y', p);
    Sorting.FilterConcat(x, y, p);
    Sorting.FilterConcat(x', y', p);
    assert Sorting.Filter(x, p) + [] == x && Sorting.Filter(x', p) + [] == x';
    assert (x + y)[|x|..] == y && (x' + y')[|x'|..] == y';
  }

  lemma SamePrefixIff<T>(p: seq<T>, x: seq<T>, y: seq<T>)
    ensures p + x == p + y <==> x == y
  {
    assert (p + x)[|p|..] == x && (p + y)[|p|..] == y;
  }

  /** Read from two registries, the three pieces of a typed route list the full chain of the outer one if and only if
      the registries agree on the decode stage and on the business interceptors. */
  lemma SplitOfTwoRegistriesIff<S>(outer: seq<Definition<S>>, inner: seq<Definition<S>>)
    requires AllValid(outer) && AllValid(inner)
    ensures PreDecode(outer) + (Decode(inner) + BusinessOnly(inner)) == Listing(outer, HttpServer)
            <==> Decode(inner) == Decode(outer) && BusinessOnly(inner) == BusinessOnly(outer)
  {
    SplitListsTheFullChain(outer);
    SamePrefixIff(PreDecode(outer), Decode(inner) + BusinessOnly(inner), Decode(outer) + BusinessOnly(outer));
    InnerPieces(outer);
    InnerPieces(inner);
    HalvesAreEqualIff(Decode(inner), BusinessOnly(inner), Decode(outer), BusinessOnly(outer), AtDecode());
  }

  lemma OneBusinessIsChosen<S>(d: Definition<S>)
    requires SlotOf(d) == BusinessSlot(HttpServer)
    ensures BusinessOnly([d]) == [d]
  {
    BusinessOnlyIsOneStage([d]);
    assert Sorting.Filter([d], InSlot(BusinessSlot(HttpServer))) == [d];
    Sorting.SortOfSorted([d], ByOrder());
  }

  /** For instance, a business interceptor that only the inner registry has. */
  lemma TwoRegistriesMayDiffer<S>(it: Interceptor<S>, order: int)
    ensures var d := Definition(it.name, HttpServer, Business, order, false, Some(it));
            AllValid([d]) && PreDecode([]) + (Decode([d]) + BusinessOnly([d])) != Listing([], HttpServer)
  {
    var d := Definition(it.name, HttpServer, Business, order, false, Some(it));
    EmptyRegistry<S>();
    OneBusinessIsChosen(d);
    NotEmptyWith(PreDecode<S>([]), Decode([d]), d);
  }

  lemma NotEmptyWith<T>(a: seq<T>, b: seq<T>, x: T)
    ensures a + (b + [x]) != []
  {
  }

  // ---------- The order of execution ----------

  datatype Mark = Enter(name: string) | Exit(name: string) | Bound | Handled | Encoded

  type Log = seq<Mark>

  /** An interceptor that records its name on the way in and on the way out. */
  function Recording(name: string): Interceptor<Log> {
    Interceptor(name, (s: Log, next: Handler<Log>) => next(s + [Enter(name)]) + [Exit(name)])
  }

  /** A middleware that does the same. */
  function Recorder(name: string): Option<Middleware<Log>> {
    Some((next: Handler<Log>) => (s: Log) => next(s + [Enter(name)]) + [Exit(name)])
  }

  function Recorders(names: seq<string>): seq<Option<Middleware<Log>>> {
    seq(|names|, i requires 0 <= i < |names| => Recorder(names[i]))
  }

  function NamesOf(definitions: seq<Definition<Log>>): (r: seq<string>)
    ensures |r| == |definitions| && forall i :: 0 <= i < |r| ==> r[i] == definitions[i].name
  {
    seq(|definitions|, i requires 0 <= i < |definitions| => definitions[i].name)
  }

  function Enters(names: seq<string>): (r: Log)
    ensures |r| == |names| && forall i :: 0 <= i < |r| ==> r[i] == Enter(names[i])
  {
    seq(|names|, i requires 0 <= i < |names| => Enter(names[i]))
  }

  function Exits(names: seq<string>): (r: Log)
    ensures |r| == |names| && forall i :: 0 <= i < |r| ==> r[i] == Exit(names[|names| - 1 - i])
  {
    seq(|names|, i requires 0 <= i < |names| => Exit(names[|names| - 1 - i]))
  }

  ghost predicate AllRecording(definitions: seq<Definition<Log>>) {
    forall d | d in definitions :: d.interceptor == Some(Recording(d.name))
  }

  lemma EntersAndExits(s: Log, name: string, rest: seq<string>, r: Log)
    ensures s + [Enter(name)] + Enters(rest) == s + Enters([name] + rest)
    ensures r + Exits(rest) + [Exit(name)] == r + Exits([name] + rest)
  {
    assert Enters([name] + rest) == [Enter(name)] + Enters(rest);
    assert Exits([name] + rest) == Exits(rest) + [Exit(name)];
  }

  /** Interceptors are entered in order and left in reverse. */
  lemma {:induction false} FoldRecords(definitions: seq<Definition<Log>>, final: Handler<Log>, s: Log)
    requires AllRecording(definitions)
    ensures Fold(definitions, final)(s) == final(s + Enters(NamesOf(definitions))) + Exits(NamesOf(definitions))
  {
    if definitions == [] {
      assert s + Enters([]) == s;
      assert final(s) + Exits([]) == final(s);
    } else {
      var d, rest := definitions[0], definitions[1..];
      FoldRecords(rest, final, s + [Enter(d.name)]);
      assert NamesOf(definitions) == [d.name] + NamesOf(rest);
      EntersAndExits(s, d.name, NamesOf(rest), final(s + Enters(NamesOf(definitions))));
      assert Recording(d.name).intercept(s, Fold(rest, final))
        == Fold(rest, final)(s + [Enter(d.name)]) + [Exit(d.name)];
    }
  }

  /** Middlewares are entered in order and left in reverse. */
  lemma {:induction false} AroundRecords(names: seq<string>, final: Handler<Log>, s: Log)
    ensures Around(Recorders(names), final)(s) == final(s + Enters(names)) + Exits(names)
  {
    if names == [] {
      assert s + Enters(names) == s;
      assert final(s) + Exits(names) == final(s);
    } else {
      var rest := names[1..];
      assert names == [names[0]] + rest && Recorders(names)[1..] == Recorders(rest);
      AroundRecords(rest, final, s + [Enter(names[0])]);
      EntersAndExits(s, names[0], rest, final(s + Enters(names)));
    }
  }

  lemma {:induction false} ChosenAreRegistered<S>(
    registered: seq<Definition<S>>, kind: Kind, f: bool, b: bool, stages: seq<Stage>)
    ensures forall d | d in Chosen(registered, kind, f, b, stages) :: d in registered
  {
    if stages == [] {
    } else {
      ChosenAreRegistered(registered, kind, f, b, stages[..|stages| - 1]);
      ContributionSlots(registered, kind, f, b, stages[|stages| - 1]);
    }
  }

  /** Everything a typed route does: `pre` and `inner` are the interceptors before and after the binder, `outer` the
      root and group middlewares, `own` the route's. */
  function TypedLog(pre: seq<string>, outer: seq<string>, inner: seq<string>, own: seq<string>): Log {
    Enters(pre) + Enters(outer) + [Mark.Bound] + Enters(inner) + Enters(own) + [Handled]
    + Exits(own) + Exits(inner) + [Encoded] + Exits(outer) + Exits(pre)
  }

  function RecordingBind(): Log -> Bound<Log> {
    (s: Log) => Bound.Bound(s + [Mark.Bound])
  }

  function RecordingHandler(): Handler<Log> {
    (s: Log) => s + [Handled]
  }

  function RecordingEncoder(): Handler<Log> {
    (s: Log) => s + [Encoded]
  }

  function RecordingEndpoint(own: seq<string>): Endpoint<Log> {
    Typed(RecordingBind(), Recorders(own), RecordingHandler(), RecordingEncoder())
  }

  function Inside(inner: seq<Definition<Log>>, own: seq<string>): Handler<Log> {
    Bind(RecordingBind(), Then(Fold(inner, Around(Recorders(own), RecordingHandler())), RecordingEncoder()))
  }

  lemma InsideRecords(inner: seq<Definition<Log>>, own: seq<string>, s: Log)
    requires AllRecording(inner)
    ensures Inside(inner, own)(s)
            == s + [Mark.Bound] + Enters(NamesOf(inner)) + Enters(own) + [Handled]
               + Exits(own) + Exits(NamesOf(inner)) + [Encoded]
  {
    var bound := s + [Mark.Bound];
    FoldRecords(inner, Around(Recorders(own), RecordingHandler()), bound);
    AroundRecords(own, RecordingHandler(), bound + Enters(NamesOf(inner)));
  }

  lemma OutsideRecords(pre: seq<Definition<Log>>, outer: seq<string>, inside: Handler<Log>)
    requires AllRecording(pre)
    ensures Fold(pre, Around(Recorders(outer), inside))([])
            == inside(Enters(NamesOf(pre)) + Enters(outer)) + Exits(outer) + Exits(NamesOf(pre))
  {
    FoldRecords(pre, Around(Recorders(outer), inside), []);
    assert [] + Enters(NamesOf(pre)) == Enters(NamesOf(pre));
    AroundRecords(outer, inside, Enters(NamesOf(pre)));
  }

  lemma TypedPiecesRecord(pre: seq<Definition<Log>>, outer: seq<string>, inner: seq<Definition<Log>>, own: seq<string>)
    requires AllRecording(pre) && AllRecording(inner)
    ensures Fold(pre, Around(Recorders(outer), Inside(inner, own)))([])
            == TypedLog(NamesOf(pre), outer, NamesOf(inner), own)
  {
    OutsideRecords(pre, outer, Inside(inner, own));
    InsideRecords(inner, own, Enters(NamesOf(pre)) + Enters(outer));
  }

  lemma PiecesAreRecording(outer: seq<Definition<Log>>, inner: seq<Definition<Log>>)
    requires AllRecording(outer) && AllRecording(inner)
    ensures AllRecording(PreDecode(outer)) && AllRecording(Decode(inner) + BusinessOnly(inner))
  {
    ChosenAreRegistered(outer, HttpServer, true, false, PRE_DECODE_STAGES);
    ChosenAreRegistered(inner, HttpServer, true, false, DECODE_STAGES);
    ChosenAreRegistered(inner, HttpServer, false, true, SERVER_STAGES);
  }

  /** What a typed route does, step by step: the interceptors before decoding, the root and group middlewares,
      the binder, the decode and business interceptors, the route's own middlewares, the handler, and all of them
      back out in reverse. */
  lemma TypedRouteOrder(outer: seq<Definition<Log>>, inner: seq<Definition<Log>>, mws: seq<string>,
                        groups: seq<string>, own: seq<string>, verb: string, path: string)
    requires AllRecording(outer) && AllRecording(inner)
    ensures Served(outer, inner, Recorders(mws), Route(verb, path, RecordingEndpoint(own), Recorders(groups), true))([])
            == TypedLog(NamesOf(PreDecode(outer)), mws + groups, NamesOf(Decode(inner) + BusinessOnly(inner)), own)
  {
    assert Recorders(mws) + Recorders(groups) == Recorders(mws + groups);
    PiecesAreRecording(outer, inner);
    TypedPiecesRecord(PreDecode(outer), mws + groups, Decode(inner) + BusinessOnly(inner), own);
  }

  // ---------- What Execute does, as it is seen ----------

  lemma EntersConcat(a: seq<string>, b: seq<string>, s: Log)
    ensures s + Enters(a + b) == s + Enters(a) + Enters(b)
    ensures s + Exits(a + b) == s + Exits(b) + Exits(a)
  {
    assert Enters(a + b) == Enters(a) + Enters(b);
    assert Exits(a + b) == Exits(b) + Exits(a);
  }

  lemma PlainRecords(listed: seq<Definition<Log>>, mws: seq<string>, groups: seq<string>)
    requires AllRecording(listed)
    ensures Fold(listed, Around(Recorders(mws) + Recorders(groups), RecordingHandler()))([])
            == Enters(NamesOf(listed)) + Enters(mws) + Enters(groups) + [Handled]
               + Exits(groups) + Exits(mws) + Exits(NamesOf(listed))
  {
    assert Recorders(mws) + Recorders(groups) == Recorders(mws + groups);
    OutsideRecords(listed, mws + groups, RecordingHandler());
    EntersConcat(mws, groups, Enters(NamesOf(listed)));
    EntersConcat(mws, groups, Enters(NamesOf(listed)) + Enters(mws) + Enters(groups) + [Handled]);
  }

  /** A plain route, as it is seen: all interceptors of the snapshot's registry, the root middlewares, those of the
      groups and the route, the handler, and each of them back out in reverse. */
  method PlainRouteOrder(outer: Registry?<Log>, inner: Registry?<Log>, mws: seq<string>, groups: seq<string>,
                         verb: string, path: string)
    returns (r: Log)
    requires (outer != null ==> outer.Valid()) && (inner != null ==> inner.Valid())
    requires outer != null ==> AllRecording(outer.registered)
    ensures var listed := if outer == null then [] else NamesOf(Listing(outer.registered, HttpServer));
            r == Enters(listed) + Enters(mws) + Enters(groups) + [Handled] + Exits(groups) + Exits(mws) + Exits(listed)
  {
    EmptyRegistry<Log>();
    if outer != null { ChosenAreRegistered(outer.registered, HttpServer, true, true, SERVER_STAGES); }
    PlainRecords(Listing(RegisteredIn(outer), HttpServer), mws, groups);
    r := Execute([], outer, inner, Recorders(mws),
                 Route(verb, path, Plain(RecordingHandler()), Recorders(groups), false));
  }

  /** A typed route, as it is seen: the early interceptors of the snapshot's registry, the middlewares of root and
      groups, the binder, the late interceptors of the router's registry, the route's own middlewares, the handler. */
  method TypedRouteIsSeen(outer: Registry?<Log>, inner: Registry?<Log>, mws: seq<string>, groups: seq<string>,
                          own: seq<string>, verb: string, path: string)
    returns (r: Log)
    requires (outer != null ==> outer.Valid()) && (inner != null ==> inner.Valid())
    requires (outer != null ==> AllRecording(outer.registered)) && (inner != null ==> AllRecording(inner.registered))
    ensures var early := if outer == null then [] else NamesOf(PreDecode(outer.registered));
            var late :=
              if inner == null then [] else NamesOf(Decode(inner.registered) + BusinessOnly(inner.registered));
            r == Enters(early) + Enters(mws) + Enters(groups) + [Mark.Bound] + Enters(late) + Enters(own) + [Handled]
                 + Exits(own) + Exits(late) + [Encoded] + Exits(groups) + Exits(mws) + Exits(early)
  {
    EmptyRegistry<Log>();
    ghost var a, b := RegisteredIn(outer), RegisteredIn(inner);
    TypedRouteOrder(a, b, mws, groups, own, verb, path);
    r := Execute([], outer, inner, Recorders(mws), Route(verb, path, RecordingEndpoint(own), Recorders(groups), true));
    ghost var early, late := NamesOf(PreDecode(a)), NamesOf(Decode(b) + BusinessOnly(b));
    EntersConcat(mws, groups, Enters(early));
    EntersConcat(mws, groups, Enters(early) + Enters(mws) + Enters(groups) + [Mark.Bound] + Enters(late) + Enters(own)
                              + [Handled] + Exits(own) + Exits(late) + [Encoded]);
  }

  function RecordingReject(): Log -> Bound<Log> {
    (s: Log) => Bound<Log>.Rejected(s + [Mark.Bound])
  }

  lemma RejectionRecords(pre: seq<Definition<Log>>, mws: seq<string>, groups: seq<string>, behind: Handler<Log>)
    requires AllRecording(pre)
    ensures Fold(pre, Around(Recorders(mws) + Recorders(groups), Bind(RecordingReject(), behind)))([])
            == Enters(NamesOf(pre)) + Enters(mws) + Enters(groups) + [Mark.Bound]
               + Exits(groups) + Exits(mws) + Exits(NamesOf(pre))
  {
    assert Recorders(mws) + Recorders(groups) == Recorders(mws + groups);
    OutsideRecords(pre, mws + groups, Bind(RecordingReject(), behind));
    EntersConcat(mws, groups, Enters(NamesOf(pre)));
    EntersConcat(mws, groups, Enters(NamesOf(pre)) + Enters(mws) + Enters(groups) + [Mark.Bound]);
  }

  function RejectingEndpoint(own: seq<string>): Endpoint<Log> {
    Typed(RecordingReject(), Recorders(own), RecordingHandler(), RecordingEncoder())
  }

  lemma RejectedRouteOrder(a: seq<Definition<Log>>, b: seq<Definition<Log>>, mws: seq<string>, groups: seq<string>,
                           own: seq<string>, verb: string, path: string)
    requires AllRecording(a)
    ensures Served(a, b, Recorders(mws), Route(verb, path, RejectingEndpoint(own), Recorders(groups), true))([])
            == Enters(NamesOf(PreDecode(a))) + Enters(mws) + Enters(groups) + [Mark.Bound]
               + Exits(groups) + Exits(mws) + Exits(NamesOf(PreDecode(a)))
  {
    ChosenAreRegistered(a, HttpServer, true, false, PRE_DECODE_STAGES);
    var typed := Fold(Decode(b) + BusinessOnly(b), Around(Recorders(own), RecordingHandler()));
    RejectionRecords(PreDecode(a), mws, groups, Then(typed, RecordingEncoder()));
  }

  /** When the binder rejects the request, nothing behind it runs. */
  method RejectedRouteIsSeen(outer: Registry?<Log>, inner: Registry?<Log>, mws: seq<string>, groups: seq<string>,
                             own: seq<string>, verb: string, path: string)
    returns (r: Log)
    requires (outer != null ==> outer.Valid()) && (inner != null ==> inner.Valid())
    requires outer != null ==> AllRecording(outer.registered)
    ensures var early := if outer == null then [] else NamesOf(PreDecode(outer.registered));
            r == Enters(early) + Enters(mws) + Enters(groups) + [Mark.Bound]
                 + Exits(groups) + Exits(mws) + Exits(early)
  {
    EmptyRegistry<Log>();
    RejectedRouteOrder(RegisteredIn(outer), RegisteredIn(inner), mws, groups, own, verb, path);
    r := Execute([], outer, inner, Recorders(mws), Route(verb, path, RejectingEndpoint(own), Recorders(groups), true));
  }

  // ---------- What paths and middlewares mean ----------

  /** One slash between the parts, one in front, none doubled at the joint. */
  lemma JoinPathMeans(prefix: string, path: string)
    ensures var head, tail := TrimRight(prefix, SLASH), TrimLeft(path, SLASH);
            JoinPath(prefix, path) ==
              if head == "" then "/" + tail
              else if head[0] == '/' then head + "/" + tail
              else "/" + head + "/" + tail
  {
    JoinPathForm(prefix, path);
    RootedMeans(TrimRight(prefix, SLASH), TrimLeft(path, SLASH));
  }

  lemma RootedMeans(head: string, tail: string)
    ensures Rooted(head) + ("/" + tail) ==
              if head == "" then "/" + tail
              else if head[0] == '/' then head + "/" + tail
              else "/" + head + "/" + tail
  {
    var slash := "/";
    if head == "" {
      assert head + (slash + tail) == slash + tail;
    } else if head[0] == '/' {
      assert head + (slash + tail) == head + slash + tail;
    } else {
      assert slash + head + (slash + tail) == slash + head + slash + tail;
    }
  }

  /** No middleware is the handler itself; a nil one is skipped; another one is around it. */
  lemma AroundMeans<S>(m: Middleware<S>, final: Handler<S>)
    ensures Around([], final) == final && Around([None], final) == final && Around([Some(m)], final) == m(final)
  {
    var none: seq<Option<Middleware<S>>> := [None];
    var some: seq<Option<Middleware<S>>> := [Some(m)];
    assert none[1..] == [] && some[1..] == [];
    assert Around(none[1..], final) == final && Around(some[1..], final) == final;
  }
}
