/** The interceptor registry: staged, stably sorted definitions that are folded into handlers. */
module Interceptors {
  import opened Options
  import opened Sorting

  /** A handler takes the state of a call (context, invocation, request and every effect so far)
      to the state after it (response or error, and the effects made). */
  type Handler<!S> = S -> S

  datatype Interceptor<!S> = Interceptor(name: string, intercept: (S, Handler<S>) -> S)

  datatype Kind = HttpServer | HttpClient | GrpcServer | GrpcClient | OtherKind(name: string)

  datatype Stage =
    | Recovery | RouteResolve | Observe | Deadline | Admission | Security | DecodeValidate | Retry | Business
    | OtherStage(name: string)

  const NO_KIND := OtherKind("")
  const NO_STAGE := OtherStage("")

  const PRE_DECODE_STAGES := [Recovery, RouteResolve, Observe, Deadline, Admission, Security]
  const DECODE_STAGES := [DecodeValidate]
  const SERVER_STAGES :=
    [Recovery, RouteResolve, Observe, Deadline, Admission, Security, DecodeValidate, Business]
  const CLIENT_STAGES := [Recovery, Observe, Deadline, Admission, Retry, Business, Security]

  function StagesForKind(kind: Kind): seq<Stage> {
    match kind
    case HttpServer | GrpcServer => SERVER_STAGES
    case HttpClient | GrpcClient => CLIENT_STAGES
    case OtherKind(_) => []
  }

  datatype Definition<!S> = Definition(
    name: string, kind: Kind, stage: Stage, order: int, framework: bool, interceptor: Option<Interceptor<S>>)
  {
    function Normalize(): Definition<S> {
      if interceptor.None? then Definition("", NO_KIND, NO_STAGE, 0, false, None)
      else
        var named := if name == "" then this.(name := interceptor.value.name) else this;
        if framework then named else named.(stage := Business)
    }

    predicate Valid() {
      && kind != NO_KIND && stage != NO_STAGE && interceptor.Some?
      && if framework then stage in StagesForKind(kind) else stage == Business
    }
  }

  // ---------- Folding ----------

  function Wrap<S>(definition: Definition<S>, next: Handler<S>): Handler<S> {
    (s: S) => if definition.interceptor.None? then next(s) else definition.interceptor.value.intercept(s, next)
  }

  /** The first definition is the outermost. */
  function Fold<S>(definitions: seq<Definition<S>>, final: Handler<S>): Handler<S> {
    if definitions == [] then final else Wrap(definitions[0], Fold(definitions[1..], final))
  }

  /** Folding a concatenation is composing the folded pieces. */
  lemma {:induction false} FoldConcat<S>(a: seq<Definition<S>>, b: seq<Definition<S>>, final: Handler<S>)
    ensures Fold(a + b, final) == Fold(a, Fold(b, final))
  {
    if a == [] {
      assert a + b == b;
    } else {
      assert (a + b)[1..] == a[1..] + b;
      FoldConcat(a[1..], b, final);
    }
  }

  // ---------- Where definitions are kept and in which order they are listed ----------

  datatype Slot = FrameworkSlot(kind: Kind, stage: Stage) | BusinessSlot(kind: Kind)

  function SlotOf<S>(d: Definition<S>): Slot {
    if d.framework then FrameworkSlot(d.kind, d.stage) else BusinessSlot(d.kind)
  }

  function InSlot<S>(slot: Slot): Definition<S> -> bool {
    (d: Definition<S>) => SlotOf(d) == slot
  }

  function ByOrder<S>(): Definition<S> -> Key {
    (d: Definition<S>) => Key(0, d.order, d.name)
  }

  /** What `Register` keeps of its arguments. */
  function Accepted<S>(definitions: seq<Definition<S>>): (r: seq<Definition<S>>)
    ensures forall d | d in r :: d.Valid()
  {
    if definitions == [] then []
    else
      var d := definitions[0].Normalize();
      (if d.Valid() then [d] else []) + Accepted(definitions[1..])
  }

  lemma {:induction false} AcceptedConcat<S>(a: seq<Definition<S>>, b: seq<Definition<S>>)
    ensures Accepted(a + b) == Accepted(a) + Accepted(b)
  {
    if a == [] {
      assert a + b == b;
    } else {
      assert (a + b)[1..] == a[1..] + b;
      AcceptedConcat(a[1..], b);
    }
  }

  lemma AcceptedNext<S>(before: seq<Definition<S>>, definitions: seq<Definition<S>>, k: nat)
    requires k < |definitions|
    ensures before + Accepted(definitions[..k + 1])
            == before + Accepted(definitions[..k])
               + if definitions[k].Normalize().Valid() then [definitions[k].Normalize()] else []
  {
    assert definitions[..k + 1] == definitions[..k] + [definitions[k]];
    AcceptedConcat(definitions[..k], [definitions[k]]);
    assert Accepted([definitions[k]])
      == if definitions[k].Normalize().Valid() then [definitions[k].Normalize()] else [];
  }

  /** The definitions one stage contributes to a list. */
  function Contribution<S>(registered: seq<Definition<S>>, kind: Kind, stage: Stage,
                           includeFramework: bool, includeBusiness: bool): seq<Definition<S>>
  {
    if stage == Business then
      if includeBusiness then StableSort(Filter(registered, InSlot(BusinessSlot(kind))), ByOrder()) else []
    else
      if includeFramework then StableSort(Filter(registered, InSlot(FrameworkSlot(kind, stage))), ByOrder()) else []
  }

  function Chosen<S>(registered: seq<Definition<S>>, kind: Kind, includeFramework: bool, includeBusiness: bool,
                     stages: seq<Stage>): seq<Definition<S>>
  {
    if stages == [] then []
    else
      var n := |stages| - 1;
      Chosen(registered, kind, includeFramework, includeBusiness, stages[..n])
      + Contribution(registered, kind, stages[n], includeFramework, includeBusiness)
  }

  lemma ChosenNext<S>(registered: seq<Definition<S>>, kind: Kind, f: bool, b: bool, stages: seq<Stage>, k: nat)
    requires k < |stages|
    ensures Chosen(registered, kind, f, b, stages[..k + 1])
            == Chosen(registered, kind, f, b, stages[..k]) + Contribution(registered, kind, stages[k], f, b)
  {
    assert stages[..k + 1][..k] == stages[..k];
  }

  /** The full list of a kind, of which every chain is a part. */
  function Listing<S>(registered: seq<Definition<S>>, kind: Kind): seq<Definition<S>> {
    Chosen(registered, kind, true, true, StagesForKind(kind))
  }

  // ---------- The list is one stable sort of the registration sequence ----------

  function IndexOf(stages: seq<Stage>, stage: Stage): (i: int)
    ensures 0 <= i <= |stages|
    ensures i < |stages| ==> stages[i] == stage
    ensures forall j :: 0 <= j < i ==> stages[j] != stage
  {
    if stages == [] || stages[0] == stage then 0 else 1 + IndexOf(stages[1..], stage)
  }

  function ByStage<S>(stages: seq<Stage>): Definition<S> -> Key {
    (d: Definition<S>) => Key(IndexOf(stages, d.stage), d.order, d.name)
  }

  function IsListed<S>(kind: Kind, stages: seq<Stage>): Definition<S> -> bool {
    (d: Definition<S>) => d.kind == kind && d.stage in stages && (d.framework <==> d.stage != Business)
  }

  ghost predicate Distinct(stages: seq<Stage>) {
    forall i, j :: 0 <= i < j < |stages| ==> stages[i] != stages[j]
  }

  ghost predicate AllValid<S>(registered: seq<Definition<S>>) {
    forall d | d in registered :: d.Valid()
  }

  /** Two selections of a list that agree element by element are equal. */
  lemma {:induction false} SameSelection<S>(
    s: seq<Definition<S>>, p: Definition<S> -> bool, f: Definition<S> -> Key, j: Key,
    q: Definition<S> -> bool, g: Definition<S> -> Key, k: Key)
    requires forall d | d in s :: p(d) && f(d) == j <==> q(d) && g(d) == k
    ensures WithKey(Filter(s, p), f, j) == WithKey(Filter(s, q), g, k)
  {
    if s == [] {
    } else {
      SameSelection(s[1..], p, f, j, q, g, k);
      WithKeyConcat(if p(s[0]) then [s[0]] else [], Filter(s[1..], p), f, j);
      WithKeyConcat(if q(s[0]) then [s[0]] else [], Filter(s[1..], q), g, k);
    }
  }

  lemma {:induction false} SameKeys<S>(
    s: seq<Definition<S>>, f: Definition<S> -> Key, j: Key, g: Definition<S> -> Key, k: Key)
    requires forall d | d in s :: f(d) == j <==> g(d) == k
    ensures WithKey(s, f, j) == WithKey(s, g, k)
  {
    if s == [] {
    } else {
      SameKeys(s[1..], f, j, g, k);
    }
  }

  function SlotAt(kind: Kind, stage: Stage): Slot {
    if stage == Business then BusinessSlot(kind) else FrameworkSlot(kind, stage)
  }

  /** `l` is sorted by stage and is what a stable sort of `all` keeps at the stage positions from `lo` to `hi`. */
  ghost predicate Block<S>(l: seq<Definition<S>>, all: seq<Definition<S>>, stages: seq<Stage>, lo: int, hi: int) {
    && Sorted(l, ByStage(stages))
    && (forall d | d in l :: lo <= IndexOf(stages, d.stage) < hi)
    && forall k: Key | lo <= k.stage < hi :: WithKey(l, ByStage(stages), k) == WithKey(all, ByStage(stages), k)
  }

  lemma BlockConcatAt<S>(a: seq<Definition<S>>, b: seq<Definition<S>>, all: seq<Definition<S>>,
                         stages: seq<Stage>, lo: int, mid: int, hi: int, k: Key)
    requires Block(a, all, stages, lo, mid) && Block(b, all, stages, mid, hi) && lo <= k.stage < hi
    ensures WithKey(a + b, ByStage(stages), k) == WithKey(all, ByStage(stages), k)
  {
    WithKeyConcat(a, b, ByStage(stages), k);
    if k.stage < mid {
      NoneWithKey(b, ByStage(stages), k);
      assert WithKey(a, ByStage(stages), k) + [] == WithKey(all, ByStage(stages), k);
    } else {
      NoneWithKey(a, ByStage(stages), k);
      assert [] + WithKey(b, ByStage(stages), k) == WithKey(all, ByStage(stages), k);
    }
  }

  lemma BlockConcat<S>(l: seq<Definition<S>>, a: seq<Definition<S>>, b: seq<Definition<S>>, all: seq<Definition<S>>,
                       stages: seq<Stage>, lo: int, mid: int, hi: int)
    requires lo <= mid <= hi && l == a + b
    requires Block(a, all, stages, lo, mid) && Block(b, all, stages, mid, hi)
    ensures Block(l, all, stages, lo, hi)
  {
    SortedConcat(a, b, ByStage(stages));
    forall k: Key | lo <= k.stage < hi ensures WithKey(l, ByStage(stages), k) == WithKey(all, ByStage(stages), k) {
      BlockConcatAt(a, b, all, stages, lo, mid, hi, k);
    }
  }

  lemma ContributionStage<S>(registered: seq<Definition<S>>, kind: Kind, stages: seq<Stage>, n: nat)
    requires AllValid(registered) && Distinct(stages) && n < |stages|
    ensures forall d | d in Contribution(registered, kind, stages[n], true, true) :: IndexOf(stages, d.stage) == n
  {
    var kept := Filter(registered, InSlot(SlotAt(kind, stages[n])));
    var g := Contribution(registered, kind, stages[n], true, true);
    StableSortIsStable(kept, ByOrder());
    forall d | d in g ensures IndexOf(stages, d.stage) == n {
      assert d in multiset(g);
      assert d in kept;
    }
  }

  lemma SortedByStage<S>(g: seq<Definition<S>>, stages: seq<Stage>, n: nat)
    requires Sorted(g, ByOrder())
    requires forall d | d in g :: IndexOf(stages, d.stage) == n
    ensures Sorted(g, ByStage(stages))
  {
    forall i, j | 0 <= i < j < |g| ensures !Below(ByStage(stages)(g[j]), ByStage(stages)(g[i])) {
      assert g[i] in g && g[j] in g;
      assert !Below(ByOrder()(g[j]), ByOrder()(g[i]));
    }
  }

  lemma SameDefinition<S>(d: Definition<S>, kind: Kind, stages: seq<Stage>, n: nat, k: Key)
    requires d.Valid() && Distinct(stages) && n < |stages| && k.stage == n
    ensures InSlot<S>(SlotAt(kind, stages[n]))(d) && ByOrder<S>()(d) == Key(0, k.order, k.name)
            <==> IsListed<S>(kind, stages)(d) && ByStage<S>(stages)(d) == k
  {
  }

  /** One stage's contribution is a block. */
  lemma ContributionIsBlock<S>(registered: seq<Definition<S>>, kind: Kind, stages: seq<Stage>, n: nat)
    requires AllValid(registered) && Distinct(stages) && n < |stages|
    ensures Block(Contribution(registered, kind, stages[n], true, true),
                  Filter(registered, IsListed(kind, stages)), stages, n, n + 1)
  {
    var p := InSlot<S>(SlotAt(kind, stages[n]));
    var g := Contribution(registered, kind, stages[n], true, true);
    StableSortIsStable(Filter(registered, p), ByOrder());
    ContributionStage(registered, kind, stages, n);
    SortedByStage(g, stages, n);
    forall k: Key | n <= k.stage < n + 1
      ensures WithKey(g, ByStage(stages), k) == WithKey(Filter(registered, IsListed(kind, stages)), ByStage(stages), k)
    {
      var k0 := Key(0, k.order, k.name);
      SameKeys(g, ByStage(stages), k, ByOrder(), k0);
      forall d | d in registered
        ensures p(d) && ByOrder()(d) == k0 <==> IsListed(kind, stages)(d) && ByStage(stages)(d) == k
      {
        SameDefinition(d, kind, stages, n, k);
      }
      SameSelection(registered, p, ByOrder(), k0, IsListed(kind, stages), ByStage(stages), k);
    }
  }

  lemma EmptyBlock<S>(all: seq<Definition<S>>, stages: seq<Stage>)
    ensures Block([], all, stages, 0, 0)
  {
  }

  lemma {:induction false} PrefixIsBlock<S>(registered: seq<Definition<S>>, kind: Kind, stages: seq<Stage>, n: nat)
    requires AllValid(registered) && Distinct(stages) && n <= |stages|
    ensures Block(Chosen(registered, kind, true, true, stages[..n]),
                  Filter(registered, IsListed(kind, stages)), stages, 0, n)
  {
    if n == 0 {
      EmptyBlock(Filter(registered, IsListed(kind, stages)), stages);
      assert stages[..0] == [];
    } else {
      PrefixIsBlock(registered, kind, stages, n - 1);
      ContributionIsBlock(registered, kind, stages, n - 1);
      NextBlock(registered, Filter(registered, IsListed(kind, stages)), kind, stages, n - 1);
    }
  }

  lemma NextBlock<S>(registered: seq<Definition<S>>, all: seq<Definition<S>>, kind: Kind, stages: seq<Stage>, n: nat)
    requires n < |stages| && Block(Chosen(registered, kind, true, true, stages[..n]), all, stages, 0, n)
    requires Block(Contribution(registered, kind, stages[n], true, true), all, stages, n, n + 1)
    ensures Block(Chosen(registered, kind, true, true, stages[..n + 1]), all, stages, 0, n + 1)
  {
    ChosenNext(registered, kind, true, true, stages, n);
    BlockConcat(Chosen(registered, kind, true, true, stages[..n + 1]),
                Chosen(registered, kind, true, true, stages[..n]),
                Contribution(registered, kind, stages[n], true, true), all, stages, 0, n, n + 1);
  }

  /** For any stage list, the listed definitions are one stable sort of the registration sequence
      by stage position, order and name. */
  lemma ListingIsOneStableSort<S>(registered: seq<Definition<S>>, kind: Kind, stages: seq<Stage>)
    requires AllValid(registered) && Distinct(stages)
    ensures Chosen(registered, kind, true, true, stages)
            == StableSort(Filter(registered, IsListed(kind, stages)), ByStage(stages))
  {
    var l := Chosen(registered, kind, true, true, stages);
    var all := Filter(registered, IsListed(kind, stages));
    assert stages[..|stages|] == stages;
    PrefixIsBlock(registered, kind, stages, |stages|);
    AllIndexed(all, kind, stages);
    forall k ensures WithKey(l, ByStage(stages), k) == WithKey(all, ByStage(stages), k) {
      if !(0 <= k.stage < |stages|) {
        NoneWithKey(l, ByStage(stages), k);
        NoneWithKey(all, ByStage(stages), k);
      }
    }
    StableSortIsTheOnlyOne(all, l, ByStage(stages));
  }

  lemma AllIndexed<S>(all: seq<Definition<S>>, kind: Kind, stages: seq<Stage>)
    requires forall d | d in all :: d.stage in stages
    ensures forall d | d in all :: 0 <= IndexOf(stages, d.stage) < |stages|
  {
  }

  /** All registered definitions of a known kind, but the framework ones at the business stage. */
  function EverListed<S>(kind: Kind): Definition<S> -> bool {
    (d: Definition<S>) => d.kind == kind && !kind.OtherKind? && !(d.framework && d.stage == Business)
  }

  lemma ListedWhen<S>(d: Definition<S>, kind: Kind)
    requires d.Valid()
    ensures IsListed<S>(kind, StagesForKind(kind))(d) == EverListed<S>(kind)(d)
  {
    assert Business in SERVER_STAGES by { assert SERVER_STAGES[7] == Business; }
    assert Business in CLIENT_STAGES by { assert CLIENT_STAGES[5] == Business; }
  }

  lemma ServerStagesDistinct()
    ensures Distinct(SERVER_STAGES)
  {
  }

  lemma ClientStagesDistinct()
    ensures Distinct(CLIENT_STAGES)
  {
  }

  lemma KindStagesDistinct(kind: Kind)
    ensures Distinct(StagesForKind(kind))
  {
    ServerStagesDistinct();
    ClientStagesDistinct();
  }

  lemma FilterListed<S>(registered: seq<Definition<S>>, kind: Kind)
    requires AllValid(registered)
    ensures Filter(registered, IsListed(kind, StagesForKind(kind))) == Filter(registered, EverListed(kind))
  {
    forall d | d in registered ensures IsListed(kind, StagesForKind(kind))(d) == EverListed(kind)(d) {
      ListedWhen(d, kind);
    }
    SameFilter(registered, IsListed(kind, StagesForKind(kind)), EverListed(kind));
  }

  /** Every definition registered for a kind is listed exactly as often as it was registered, unless it is
      a framework definition at the business stage or the kind is unknown: those are accepted and never listed. */
  lemma ListedExactlyOnce<S>(registered: seq<Definition<S>>, kind: Kind)
    requires AllValid(registered)
    ensures multiset(Listing(registered, kind)) == multiset(Filter(registered, EverListed(kind)))
  {
    KindStagesDistinct(kind);
    FilterListed(registered, kind);
    ListingIsOneStableSort(registered, kind, StagesForKind(kind));
    StableSortIsStable(Filter(registered, EverListed(kind)), ByStage(StagesForKind(kind)));
  }

  lemma AcceptedButNotListed<S>(d: Definition<S>, kind: Kind)
    requires d.Valid() && d.Normalize() == d && !EverListed(kind)(d)
    ensures Accepted([d]) == [d] && Listing([d], kind) == []
  {
    assert AllValid([d]);
    ListedExactlyOnce([d], kind);
    NoneOf(Listing([d], kind));
  }

  /** For instance, a framework definition at the business stage. */
  lemma FrameworkAtBusinessIsNotListed<S>(it: Interceptor<S>, order: int)
    ensures var d := Definition(it.name, HttpServer, Business, order, true, Some(it));
            d.Valid() && Accepted([d]) == [d] && Listing([d], HttpServer) == []
  {
    assert SERVER_STAGES[7] == Business;
    AcceptedButNotListed(Definition(it.name, HttpServer, Business, order, true, Some(it)), HttpServer);
  }

  /** And a business definition of an unknown kind. */
  lemma UnknownKindIsNotListed<S>(it: Interceptor<S>, order: int, name: string)
    requires name != ""
    ensures var d := Definition(it.name, OtherKind(name), Business, order, false, Some(it));
            d.Valid() && Accepted([d]) == [d] && Listing([d], OtherKind(name)) == []
  {
    AcceptedButNotListed(Definition(it.name, OtherKind(name), Business, order, false, Some(it)), OtherKind(name));
  }

  lemma NoneOf<T>(s: seq<T>)
    ensures multiset(s) == multiset{} ==> s == []
  {
    assert s != [] ==> s[0] in multiset(s);
  }

  lemma {:induction false} SameFilter<S>(s: seq<Definition<S>>, p: Definition<S> -> bool, q: Definition<S> -> bool)
    requires forall d | d in s :: p(d) == q(d)
    ensures Filter(s, p) == Filter(s, q)
  {
    if s == [] {
    } else {
      SameFilter(s[1..], p, q);
    }
  }

  /** No order value takes a definition across a stage. */
  lemma StagesNeverCross<S>(registered: seq<Definition<S>>, kind: Kind, i: nat, j: nat)
    requires AllValid(registered) && i < j < |Listing(registered, kind)|
    ensures var l := Listing(registered, kind);
            IndexOf(StagesForKind(kind), l[i].stage) <= IndexOf(StagesForKind(kind), l[j].stage)
  {
    var stages := StagesForKind(kind);
    KindStagesDistinct(kind);
    ListingIsOneStableSort(registered, kind, stages);
    StableSortIsStable(Filter(registered, IsListed(kind, stages)), ByStage(stages));
    var l := Listing(registered, kind);
    assert !Below(ByStage(stages)(l[j]), ByStage(stages)(l[i]));
  }

  // ---------- The registry ----------

  function FrameworkIn<S>(
    framework: map<Kind, map<Stage, seq<Definition<S>>>>, kind: Kind, stage: Stage): seq<Definition<S>> {
    if kind in framework && stage in framework[kind] then framework[kind][stage] else []
  }

  function BusinessIn<S>(business: map<Kind, seq<Definition<S>>>, kind: Kind): seq<Definition<S>> {
    if kind in business then business[kind] else []
  }

  /** The two maps hold, slot by slot, what was registered. */
  ghost predicate Indexed<S>(
    framework: map<Kind, map<Stage, seq<Definition<S>>>>, business: map<Kind, seq<Definition<S>>>,
                             registered: seq<Definition<S>>)
  {
    && (forall kind, stage ::
          FrameworkIn(framework, kind, stage) == Filter(registered, InSlot(FrameworkSlot(kind, stage))))
    && (forall kind :: BusinessIn(business, kind) == Filter(registered, InSlot(BusinessSlot(kind))))
  }

  lemma FilterOneMore<S>(registered: seq<Definition<S>>, def: Definition<S>, slot: Slot)
    ensures Filter(registered + [def], InSlot(slot)) ==
            Filter(registered, InSlot(slot)) + if SlotOf(def) == slot then [def] else []
  {
    FilterConcat(registered, [def], InSlot(slot));
  }

  function AddFramework<S>(framework: map<Kind, map<Stage, seq<Definition<S>>>>, def: Definition<S>)
    : map<Kind, map<Stage, seq<Definition<S>>>>
  {
    var stages := if def.kind in framework then framework[def.kind] else map[];
    framework[def.kind := stages[def.stage := FrameworkIn(framework, def.kind, def.stage) + [def]]]
  }

  lemma AddFrameworkAt<S>(
    framework: map<Kind, map<Stage, seq<Definition<S>>>>, def: Definition<S>, kind: Kind, stage: Stage)
    ensures FrameworkIn(AddFramework(framework, def), kind, stage)
            == FrameworkIn(framework, kind, stage) + if kind == def.kind && stage == def.stage then [def] else []
  {
  }

  lemma AddFrameworkKeepsIndex<S>(framework: map<Kind, map<Stage, seq<Definition<S>>>>,
                                  business: map<Kind, seq<Definition<S>>>,
                                  registered: seq<Definition<S>>, def: Definition<S>)
    requires Indexed(framework, business, registered) && def.framework
    ensures Indexed(AddFramework(framework, def), business, registered + [def])
  {
    forall kind, stage
      ensures FrameworkIn(AddFramework(framework, def), kind, stage)
              == Filter(registered + [def], InSlot(FrameworkSlot(kind, stage)))
    {
      FilterOneMore(registered, def, FrameworkSlot(kind, stage));
      AddFrameworkAt(framework, def, kind, stage);
      assert FrameworkIn(framework, kind, stage) == Filter(registered, InSlot(FrameworkSlot(kind, stage)));
    }
    forall kind ensures BusinessIn(business, kind) == Filter(registered + [def], InSlot(BusinessSlot(kind))) {
      FilterOneMore(registered, def, BusinessSlot(kind));
    }
  }

  lemma AddBusinessKeepsIndex<S>(framework: map<Kind, map<Stage, seq<Definition<S>>>>,
                                 business: map<Kind, seq<Definition<S>>>,
                                 registered: seq<Definition<S>>, def: Definition<S>)
    requires Indexed(framework, business, registered) && !def.framework
    ensures Indexed(framework, business[def.kind := BusinessIn(business, def.kind) + [def]], registered + [def])
  {
    forall kind, stage
      ensures FrameworkIn(framework, kind, stage) == Filter(registered + [def], InSlot(FrameworkSlot(kind, stage)))
    {
      FilterOneMore(registered, def, FrameworkSlot(kind, stage));
    }
    forall kind ensures BusinessIn(business[def.kind := BusinessIn(business, def.kind) + [def]], kind)
                        == Filter(registered + [def], InSlot(BusinessSlot(kind)))
    {
      FilterOneMore(registered, def, BusinessSlot(kind));
      assert BusinessIn(business, kind) == Filter(registered, InSlot(BusinessSlot(kind)));
    }
  }

  class Registry<!S> {
    var framework: map<Kind, map<Stage, seq<Definition<S>>>>
    var business: map<Kind, seq<Definition<S>>>
    /** Every accepted definition, in registration order. */
    ghost var registered: seq<Definition<S>>

    ghost predicate Valid()
      reads this
    {
      AllValid(registered) && Indexed(framework, business, registered)
    }

    constructor ()
      ensures Valid() && registered == []
    {
      framework, business, registered := map[], map[], [];
    }

    method Add(def: Definition<S>)
      requires Valid() && def.Valid()
      modifies this
      ensures Valid() && registered == old(registered) + [def]
    {
      if def.framework {
        AddFrameworkKeepsIndex(framework, business, registered, def);
        framework := AddFramework(framework, def);
      } else {
        AddBusinessKeepsIndex(framework, business, registered, def);
        business := business[def.kind := BusinessIn(business, def.kind) + [def]];
      }
      registered := registered + [def];
    }

    method Register(definitions: seq<Definition<S>>)
      requires Valid()
      modifies this
      ensures Valid() && registered == old(registered) + Accepted(definitions)
    {
      for k := 0 to |definitions|
        invariant Valid() && registered == old(registered) + Accepted(definitions[..k])
      {
        AcceptedNext(old(registered), definitions, k);
        var def := definitions[k].Normalize();
        if !def.Valid() {
          continue;
        }
        Add(def);
      }
      assert definitions[..|definitions|] == definitions;
    }

    /** What one stage contributes, from the maps. */
    method Contributed(kind: Kind, includeFramework: bool, includeBusiness: bool, stage: Stage)
      returns (result: seq<Definition<S>>)
      requires Valid()
      ensures result == Contribution(registered, kind, stage, includeFramework, includeBusiness)
    {
      if stage == Business {
        return if includeBusiness then StableSort(BusinessIn(business, kind), ByOrder()) else [];
      }
      return if includeFramework then StableSort(FrameworkIn(framework, kind, stage), ByOrder()) else [];
    }

    method Definitions(kind: Kind, includeFramework: bool, includeBusiness: bool, stages: seq<Stage>)
      returns (result: seq<Definition<S>>)
      requires Valid()
      ensures result == Chosen(registered, kind, includeFramework, includeBusiness, stages)
    {
      result := [];
      for k := 0 to |stages|
        invariant result == Chosen(registered, kind, includeFramework, includeBusiness, stages[..k])
      {
        ChosenNext(registered, kind, includeFramework, includeBusiness, stages, k);
        var more := Contributed(kind, includeFramework, includeBusiness, stages[k]);
        result := result + more;
      }
      assert stages[..|stages|] == stages;
    }

    method ChainWithStages(
      kind: Kind, final: Handler<S>, includeFramework: bool, includeBusiness: bool, stages: seq<Stage>)
      returns (handler: Handler<S>)
      requires Valid()
      ensures handler == Fold(Chosen(registered, kind, includeFramework, includeBusiness, stages), final)
    {
      var definitions := Definitions(kind, includeFramework, includeBusiness, stages);
      handler := WrapAll(definitions, final);
    }
  }

  /** The backward loop over the definitions. */
  method WrapAll<S>(definitions: seq<Definition<S>>, final: Handler<S>) returns (handler: Handler<S>)
    ensures handler == Fold(definitions, final)
  {
    handler := final;
    var i := |definitions|;
    while i > 0
      invariant 0 <= i <= |definitions|
      invariant handler == Fold(definitions[i..], final)
    {
      i := i - 1;
      handler := Wrap(definitions[i], handler);
      assert definitions[i..][1..] == definitions[i + 1..];
    }
    assert definitions[0..] == definitions;
  }

  // ---------- What a reader of the registry relies on ----------

  /** The stages of the four known kinds, in order. */
  lemma StagesAre()
    ensures StagesForKind(HttpServer) == StagesForKind(GrpcServer)
            == [Recovery, RouteResolve, Observe, Deadline, Admission, Security, DecodeValidate, Business]
    ensures StagesForKind(HttpClient) == StagesForKind(GrpcClient)
            == [Recovery, Observe, Deadline, Admission, Retry, Business, Security]
    ensures forall name :: StagesForKind(OtherKind(name)) == []
    ensures PRE_DECODE_STAGES == [Recovery, RouteResolve, Observe, Deadline, Admission, Security]
    ensures DECODE_STAGES == [DecodeValidate]
  {
  }

  /** One definition: without an interceptor it is dropped; it takes the interceptor's name if it has none; a business
      definition goes to the business stage whatever it says; a framework one must have a stage of its kind. */
  lemma AcceptedMeans<S>(d: Definition<S>)
    ensures d.interceptor.None? ==> Accepted([d]) == []
    ensures d.interceptor.Some? ==>
              var named := d.(name := if d.name == "" then d.interceptor.value.name else d.name);
              Accepted([d]) ==
                if d.kind == OtherKind("") then []
                else if !d.framework then [named.(stage := Business)]
                else if d.stage in StagesForKind(d.kind) && d.stage != OtherStage("") then [named]
                else []
  {
    assert Accepted([d]) == if d.Normalize().Valid() then [d.Normalize()] else [];
  }

  /** Listed definitions go by stage, then by order, then by name. */
  lemma ListingOrder<S>(registered: seq<Definition<S>>, kind: Kind, i: nat, j: nat)
    requires AllValid(registered) && i < j < |Listing(registered, kind)|
    ensures var a, b := Listing(registered, kind)[i], Listing(registered, kind)[j];
            var m, n := IndexOf(StagesForKind(kind), a.stage), IndexOf(StagesForKind(kind), b.stage);
            && m <= n && (m == n ==> a.order <= b.order)
            && (m == n && a.order == b.order ==> a.name == b.name || NameBelow(a.name, b.name))
  {
    var stages := StagesForKind(kind);
    KindStagesDistinct(kind);
    ListingIsOneStableSort(registered, kind, stages);
    StableSortMeans(Filter(registered, IsListed(kind, stages)), ByStage(stages), i, j);
  }

  lemma {:induction false} FilterCounts<T>(s: seq<T>, p: T -> bool, x: T)
    ensures multiset(Filter(s, p))[x] == if p(x) then multiset(s)[x] else 0
  {
    if s == [] {
    } else {
      FilterCounts(s[1..], p, x);
      assert s == [s[0]] + s[1..];
    }
  }

  /** A definition of a known kind is listed as often as it was registered, unless it is a framework one at the
      business stage; one of another kind is not listed. */
  lemma ListedCount<S>(registered: seq<Definition<S>>, kind: Kind, d: Definition<S>)
    requires AllValid(registered)
    ensures multiset(Listing(registered, kind))[d] ==
              if d.kind == kind && !kind.OtherKind? && !(d.framework && d.stage == Business)
              then multiset(registered)[d] else 0
  {
    ListedExactlyOnce(registered, kind);
    FilterCounts(registered, EverListed(kind), d);
  }

  /** Folding nothing is the final handler; folding one definition runs its interceptor around it. */
  lemma FoldMeans<S>(d: Definition<S>, final: Handler<S>, s: S)
    ensures Fold([], final) == final
    ensures d.interceptor.None? ==> Fold([d], final)(s) == final(s)
    ensures d.interceptor.Some? ==> Fold([d], final)(s) == d.interceptor.value.intercept(s, final)
  {
    assert [d][1..] == [];
    assert Fold([d], final) == Wrap(d, Fold([d][1..], final));
  }
}
