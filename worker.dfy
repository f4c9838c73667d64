/** The watch/generate orchestrator (packages/core/dev/src/base-plugin/worker.ts).
    It owns two maps, the resolvers by file and the resolved routes by full
    path, and the list of generator watch handlers. Watcher events update the
    maps, then every handler runs on a snapshot of the routes. Each resolver
    and each handler fails on its own: a failure is logged and the loop goes
    on. */
module Worker {
  import opened Wrappers
  import opened Text
  import opened OrderedMap
  import opened Types
  import opened Routes
  import opened Cache
  import opened Resolver

  /** What a resolver run reported: the resolved route, or the error it threw. */
  datatype Outcome = Resolved(name: string, route: RouteResolverEntry) | Failed(name: string, error: string)

  /** One call of a generator's watch handler and whether it completed. */
  datatype Run = Run(generator: string, routes: seq<RouteResolverEntry>, event: Option<WatcherEvent>, ok: bool)

  /** A configured generator: its name and whether its factory resolves. */
  datatype GeneratorInit = GeneratorInit(name: string, initOk: bool)

  /** The generators' watch handlers, by generator name: whether a call completes. */
  type WatchBehaviour = (string, seq<RouteResolverEntry>, Option<WatcherEvent>) -> bool

  /** Every resolved route is stored under its own full path. */
  ghost predicate Keyed(routes: Dict<RouteResolverEntry>) {
    forall k :: k in routes.vals ==> routes.vals[k].Entry().fileFullpath == k
  }

  /** Whether a resolved route is re-run when `file` changes without being a route
      itself: an API route that references the file and has a resolver. */
  predicate Selects(e: RouteResolverEntry, resolvers: Dict<RouteResolver>, file: string) {
    e.ApiEntry? && file in e.api.referencedFiles && e.Entry().fileFullpath in resolvers.vals
  }

  /** The resolvers of the referencing routes among `routes`, added to `acc` in order. */
  function Referencing(routes: seq<RouteResolverEntry>, resolvers: Dict<RouteResolver>, file: string,
                       acc: Dict<RouteResolver>): (r: Dict<RouteResolver>)
    requires acc.Valid()
    ensures r.Valid()
    decreases |routes|
  {
    if |routes| == 0 then acc
    else
      var e := routes[0];
      var fp := e.Entry().fileFullpath;
      Referencing(routes[1..], resolvers, file,
                  if Selects(e, resolvers, file) then acc.Set(fp, resolvers.vals[fp]) else acc)
  }

  /** `relatedResolvers` of an update: the changed route's own resolver when the file
      is a resolved route, otherwise the resolvers of the API routes referencing it. */
  function Related(resolvers: Dict<RouteResolver>, resolvedRoutes: Dict<RouteResolverEntry>, file: string)
    : Dict<RouteResolver>
    requires resolvedRoutes.Valid()
  {
    if file in resolvedRoutes.vals then
      if file in resolvers.vals then Empty().Set(file, resolvers.vals[file]) else Empty()
    else Referencing(resolvedRoutes.Values(), resolvers, file, Empty())
  }

  ghost predicate Picks(routes: seq<RouteResolverEntry>, resolvers: Dict<RouteResolver>, file: string, k: string) {
    exists i :: 0 <= i < |routes| && Selects(routes[i], resolvers, file) && routes[i].Entry().fileFullpath == k
  }

  /** A route list picks a key exactly when its head or its tail does. */
  lemma PicksCons(routes: seq<RouteResolverEntry>, resolvers: Dict<RouteResolver>, file: string)
    requires |routes| > 0
    ensures forall k :: Picks(routes, resolvers, file, k) <==>
      (Selects(routes[0], resolvers, file) && routes[0].Entry().fileFullpath == k) || Picks(routes[1..], resolvers, file, k)
  {
    forall k
      ensures Picks(routes, resolvers, file, k) <==>
        (Selects(routes[0], resolvers, file) && routes[0].Entry().fileFullpath == k) || Picks(routes[1..], resolvers, file, k)
    {
      if Picks(routes, resolvers, file, k) {
        var i :| 0 <= i < |routes| && Selects(routes[i], resolvers, file) && routes[i].Entry().fileFullpath == k;
        if i > 0 {
          assert routes[1..][i - 1] == routes[i];
        }
      }
      if Picks(routes[1..], resolvers, file, k) {
        var i :| 0 <= i < |routes[1..]| && Selects(routes[1..][i], resolvers, file)
                 && routes[1..][i].Entry().fileFullpath == k;
        assert routes[i + 1] == routes[1..][i];
      }
    }
  }

  /** The selection holds the accumulated keys and the picked ones. */
  lemma {:induction false} ReferencingDomain(routes: seq<RouteResolverEntry>, resolvers: Dict<RouteResolver>,
                                             file: string, acc: Dict<RouteResolver>)
    requires acc.Valid()
    ensures var r := Referencing(routes, resolvers, file, acc);
      forall k :: k in r.vals <==> k in acc.vals || Picks(routes, resolvers, file, k)
    decreases |routes|
  {
    if |routes| > 0 {
      var e := routes[0];
      var fp := e.Entry().fileFullpath;
      var acc' := if Selects(e, resolvers, file) then acc.Set(fp, resolvers.vals[fp]) else acc;
      ReferencingDomain(routes[1..], resolvers, file, acc');
      PicksCons(routes, resolvers, file);
    }
  }

  /** The selection holds the accumulated and the picked keys; a picked key maps
      to its resolver, any other key keeps its accumulated value. */
  lemma {:induction false} ReferencingSpec(routes: seq<RouteResolverEntry>, resolvers: Dict<RouteResolver>,
                                           file: string, acc: Dict<RouteResolver>)
    requires acc.Valid()
    ensures var r := Referencing(routes, resolvers, file, acc);
      forall k :: k in r.vals <==> k in acc.vals || Picks(routes, resolvers, file, k)
    ensures var r := Referencing(routes, resolvers, file, acc);
      forall k :: k in r.vals ==>
        r.vals[k] == if Picks(routes, resolvers, file, k) then resolvers.vals[k] else acc.vals[k]
    decreases |routes|
  {
    ReferencingDomain(routes, resolvers, file, acc);
    if |routes| > 0 {
      var e := routes[0];
      var fp := e.Entry().fileFullpath;
      var acc' := if Selects(e, resolvers, file) then acc.Set(fp, resolvers.vals[fp]) else acc;
      ReferencingSpec(routes[1..], resolvers, file, acc');
      ReferencingDomain(routes[1..], resolvers, file, acc');
      PicksCons(routes, resolvers, file);
    }
  }

  /** Over the routes of a keyed map, `Picks` is a lookup by key. */
  lemma PicksValues(resolvers: Dict<RouteResolver>, resolvedRoutes: Dict<RouteResolverEntry>, file: string, k: string)
    requires resolvedRoutes.Valid() && Keyed(resolvedRoutes)
    ensures Picks(resolvedRoutes.Values(), resolvers, file, k) <==>
      k in resolvedRoutes.vals && Selects(resolvedRoutes.vals[k], resolvers, file)
  {
    if Picks(resolvedRoutes.Values(), resolvers, file, k) {
      PicksFound(resolvers, resolvedRoutes, file, k);
    }
    if k in resolvedRoutes.vals && Selects(resolvedRoutes.vals[k], resolvers, file) {
      PicksStored(resolvers, resolvedRoutes, file, k);
    }
  }

  lemma PicksFound(resolvers: Dict<RouteResolver>, resolvedRoutes: Dict<RouteResolverEntry>, file: string, k: string)
    requires resolvedRoutes.Valid() && Keyed(resolvedRoutes)
    requires Picks(resolvedRoutes.Values(), resolvers, file, k)
    ensures k in resolvedRoutes.vals && Selects(resolvedRoutes.vals[k], resolvers, file)
  {
    var vs := resolvedRoutes.Values();
    var i :| 0 <= i < |vs| && Selects(vs[i], resolvers, file) && vs[i].Entry().fileFullpath == k;
    var key := resolvedRoutes.keys[i];
    assert vs[i] == resolvedRoutes.vals[key];
    assert key in resolvedRoutes.vals;
    assert resolvedRoutes.vals[key].Entry().fileFullpath == key;
  }

  lemma PicksStored(resolvers: Dict<RouteResolver>, resolvedRoutes: Dict<RouteResolverEntry>, file: string, k: string)
    requires resolvedRoutes.Valid() && Keyed(resolvedRoutes)
    requires k in resolvedRoutes.vals && Selects(resolvedRoutes.vals[k], resolvers, file)
    ensures Picks(resolvedRoutes.Values(), resolvers, file, k)
  {
    var vs := resolvedRoutes.Values();
    var i :| 0 <= i < |resolvedRoutes.keys| && resolvedRoutes.keys[i] == k;
    assert vs[i] == resolvedRoutes.vals[k];
    assert Selects(vs[i], resolvers, file) && vs[i].Entry().fileFullpath == k;
  }

  /** The update selection for a file that is not a resolved route: exactly the API
      routes whose referenced files include it (never a page), each with its own
      resolver. */
  lemma ReferencingRoutes(resolvers: Dict<RouteResolver>, resolvedRoutes: Dict<RouteResolverEntry>, file: string)
    requires resolvedRoutes.Valid() && Keyed(resolvedRoutes)
    ensures var rel := Referencing(resolvedRoutes.Values(), resolvers, file, Empty());
      forall k :: k in rel.vals <==>
        && k in resolvers.vals && k in resolvedRoutes.vals
        && resolvedRoutes.vals[k].ApiEntry? && file in resolvedRoutes.vals[k].api.referencedFiles
    ensures var rel := Referencing(resolvedRoutes.Values(), resolvers, file, Empty());
      forall k :: k in rel.vals ==> rel.vals[k] == resolvers.vals[k]
  {
    ReferencingSpec(resolvedRoutes.Values(), resolvers, file, Empty());
    forall k {
      PicksValues(resolvers, resolvedRoutes, file, k);
    }
  }

  /** The update selection: a resolved route selects only its own resolver; any
      other file selects the resolvers of the API routes referencing it. */
  lemma RelatedSpec(resolvers: Dict<RouteResolver>, resolvedRoutes: Dict<RouteResolverEntry>, file: string)
    requires resolvedRoutes.Valid() && Keyed(resolvedRoutes)
    ensures Related(resolvers, resolvedRoutes, file).Valid()
    ensures var rel := Related(resolvers, resolvedRoutes, file);
      forall k :: k in rel.vals ==> k in resolvers.vals && rel.vals[k] == resolvers.vals[k]
    ensures file in resolvedRoutes.vals ==>
      forall k :: k in Related(resolvers, resolvedRoutes, file).vals <==> k == file && file in resolvers.vals
    ensures file !in resolvedRoutes.vals ==>
      forall k :: k in Related(resolvers, resolvedRoutes, file).vals <==>
        && k in resolvers.vals && k in resolvedRoutes.vals
        && resolvedRoutes.vals[k].ApiEntry? && file in resolvedRoutes.vals[k].api.referencedFiles
  {
    if file !in resolvedRoutes.vals {
      ReferencingRoutes(resolvers, resolvedRoutes, file);
    }
  }

  /** A route file that is not among the resolved routes (its handler failed when it
      was first resolved) and that no resolved API route references selects nothing:
      changing it re-runs no resolver. */
  lemma FailedRouteNotRetried(resolvers: Dict<RouteResolver>, resolvedRoutes: Dict<RouteResolverEntry>, file: string)
    requires resolvedRoutes.Valid() && Keyed(resolvedRoutes)
    requires file !in resolvedRoutes.vals
    requires forall k :: k in resolvedRoutes.vals && resolvedRoutes.vals[k].ApiEntry? ==>
      file !in resolvedRoutes.vals[k].api.referencedFiles
    ensures forall k :: k !in Related(resolvers, resolvedRoutes, file).vals
  {
    ReferencingRoutes(resolvers, resolvedRoutes, file);
  }

  /** The resolver `resolversFactory([file])` yields for a created file, if any. */
  function CreatedResolver(cfg: Config, file: string): Option<RouteResolver> {
    match ResolveRouteFile(cfg, file)
    case None => None
    case Some(ff) =>
      var e := DeriveEntry(cfg, ff.0, ff.1);
      Some(RouteResolver(e.name, e))
  }

  lemma EntriesSingle(cfg: Config, file: string)
    ensures Entries(cfg, [file]) ==
      match ResolveRouteFile(cfg, file)
      case None => []
      case Some(ff) => [DeriveEntry(cfg, ff.0, ff.1)]
  {
    assert [file][1..] == [];
  }

  /** For a single file, the factory's map is empty or holds that file's resolver. */
  lemma FactorySingle(cfg: Config, file: string, created: Dict<RouteResolver>)
    requires created.Valid() && WellKeyed(created, Entries(cfg, [file]))
    requires forall e :: e in Entries(cfg, [file]) ==> e.fileFullpath in created.vals
    ensures |created.keys| > 0 <==> CreatedResolver(cfg, file).Some?
    ensures |created.keys| > 0 ==> created.vals[created.keys[0]] == CreatedResolver(cfg, file).value
  {
    EntriesSingle(cfg, file);
    if |created.keys| > 0 {
      assert created.keys[0] in created.vals;
      assert created.vals[created.keys[0]].entry in Entries(cfg, [file]);
    }
  }

  /** `const [resolver] = resolversFactory([file]).values()`. */
  method FirstResolver(cfg: Config, file: string) returns (r: Option<RouteResolver>)
    requires cfg.Valid()
    ensures r == CreatedResolver(cfg, file)
  {
    var created := ResolversFactory(cfg, [file]);
    FactorySingle(cfg, file, created);
    if |created.keys| > 0 {
      r := Some(created.vals[created.keys[0]]);
    } else {
      r := None;
    }
  }

  /** Whether the worker reacts to `file` at all: `resolveRouteFile(file)` is defined. */
  predicate IsRouteFile(cfg: Config, file: string) {
    ResolveRouteFile(cfg, file).Some?
  }

  method CheckRouteFile(cfg: Config, file: string) returns (b: bool)
    ensures b == IsRouteFile(cfg, file)
  {
    b := ResolveRouteFile(cfg, file).Some?;
  }

  /** The watcher's event names the worker acts on. */
  function EventKindOf(name: string): (r: Option<EventKind>)
    ensures r.Some? <==> name == "add" || name == "change" || name == "unlink"
  {
    if name == "add" then Some(Create)
    else if name == "change" then Some(Update)
    else if name == "unlink" then Some(Delete)
    else None
  }

  /** The generators whose factory resolved, in configuration order. */
  function Registered(gens: seq<GeneratorInit>): (r: seq<string>)
    ensures |r| <= |gens|
    ensures forall n :: n in r <==> exists g :: g in gens && g.initOk && g.name == n
    decreases |gens|
  {
    if |gens| == 0 then []
    else
      var init := gens[..|gens| - 1];
      var last := gens[|gens| - 1];
      assert forall g :: g in gens <==> g in init || g == last;
      Registered(init) + (if last.initOk then [last.name] else [])
  }

  /** Registration keeps configuration order: the handlers of two runs of
      generators are those of the first run followed by those of the second. */
  lemma {:induction false} RegisteredAppend(a: seq<GeneratorInit>, b: seq<GeneratorInit>)
    ensures Registered(a + b) == Registered(a) + Registered(b)
    decreases |b|
  {
    if |b| == 0 {
      assert a + b == a;
    } else {
      var c := a + b;
      var init := b[..|b| - 1];
      assert c[..|c| - 1] == a + init;
      assert c[|c| - 1] == b[|b| - 1];
      RegisteredAppend(a, init);
    }
  }

  /** One generator registers its own name iff its factory resolved. */
  lemma RegisteredOne(g: GeneratorInit)
    ensures Registered([g]) == if g.initOk then [g.name] else []
  {
  }

  /** `after` extends `before` with one completed-or-failed call per handler, in
      registration order, each on the same route snapshot and event. */
  ghost predicate Ran(before: seq<Run>, after: seq<Run>, handlers: seq<string>,
                      routes: seq<RouteResolverEntry>, event: Option<WatcherEvent>, behaviour: WatchBehaviour) {
    && |after| == |before| + |handlers|
    && after[..|before|] == before
    && forall i :: 0 <= i < |handlers| ==>
         after[|before| + i] == Run(handlers[i], routes, event, behaviour(handlers[i], routes, event))
  }

  /** One more handler run extends the record of runs by that handler. */
  lemma RanStep(before: seq<Run>, after: seq<Run>, handlers: seq<string>, h: string,
                routes: seq<RouteResolverEntry>, event: Option<WatcherEvent>, behaviour: WatchBehaviour)
    requires Ran(before, after, handlers, routes, event, behaviour)
    ensures Ran(before, after + [Run(h, routes, event, behaviour(h, routes, event))],
                handlers + [h], routes, event, behaviour)
  {
    var after' := after + [Run(h, routes, event, behaviour(h, routes, event))];
    assert after'[..|before|] == after[..|before|];
  }

  /** The resolved routes after the runs `os`: each success stores its route
      under the route's full path, a failure changes nothing. */
  function ApplyOutcomes(d: Dict<RouteResolverEntry>, os: seq<Outcome>): (r: Dict<RouteResolverEntry>)
    requires d.Valid()
    ensures r.Valid()
    decreases |os|
  {
    if |os| == 0 then d
    else
      var prev := ApplyOutcomes(d, os[..|os| - 1]);
      var o := os[|os| - 1];
      if o.Resolved? then prev.Set(o.route.Entry().fileFullpath, o.route) else prev
  }

  /** Runs never remove a route, and they keep the map keyed by full path. */
  lemma {:induction false} ApplyKeepsKeys(d: Dict<RouteResolverEntry>, os: seq<Outcome>)
    requires d.Valid() && Keyed(d)
    ensures Keyed(ApplyOutcomes(d, os))
    ensures forall k :: k in d.vals ==> k in ApplyOutcomes(d, os).vals
    decreases |os|
  {
    if |os| > 0 {
      ApplyKeepsKeys(d, os[..|os| - 1]);
    }
  }

  /** A route no successful run produced a route for keeps its previous value (or
      stays absent): a failing resolver keeps its previous entry. */
  lemma {:induction false} ApplyKeepsUntouched(d: Dict<RouteResolverEntry>, os: seq<Outcome>, k: string)
    requires d.Valid()
    requires forall j :: 0 <= j < |os| && os[j].Resolved? ==> os[j].route.Entry().fileFullpath != k
    ensures k in ApplyOutcomes(d, os).vals <==> k in d.vals
    ensures k in d.vals ==> ApplyOutcomes(d, os).vals[k] == d.vals[k]
    decreases |os|
  {
    if |os| > 0 {
      var init := os[..|os| - 1];
      assert forall j :: 0 <= j < |init| ==> init[j] == os[j];
      ApplyKeepsUntouched(d, init, k);
    }
  }

  /** The last successful run for a full path decides its route. */
  lemma {:induction false} ApplyLastWins(d: Dict<RouteResolverEntry>, os: seq<Outcome>, j: nat)
    requires d.Valid()
    requires j < |os| && os[j].Resolved?
    requires forall i :: j < i < |os| && os[i].Resolved? ==>
      os[i].route.Entry().fileFullpath != os[j].route.Entry().fileFullpath
    ensures var k := os[j].route.Entry().fileFullpath;
      k in ApplyOutcomes(d, os).vals && ApplyOutcomes(d, os).vals[k] == os[j].route
    decreases |os|
  {
    if j < |os| - 1 {
      var init := os[..|os| - 1];
      assert forall i :: 0 <= i < |init| ==> init[i] == os[i];
      ApplyLastWins(d, init, j);
    }
  }

  /** The keys the runs `os` store: those already present and the full path of
      every successful run. */
  lemma {:induction false} ApplyKeysExactly(d: Dict<RouteResolverEntry>, os: seq<Outcome>, k: string)
    requires d.Valid()
    ensures k in ApplyOutcomes(d, os).vals <==>
      k in d.vals || exists j :: 0 <= j < |os| && os[j].Resolved? && os[j].route.Entry().fileFullpath == k
    decreases |os|
  {
    if |os| > 0 {
      var init := os[..|os| - 1];
      ApplyKeysExactly(d, init, k);
      if exists j :: 0 <= j < |os| && os[j].Resolved? && os[j].route.Entry().fileFullpath == k {
        var j :| 0 <= j < |os| && os[j].Resolved? && os[j].route.Entry().fileFullpath == k;
        if j < |os| - 1 {
          assert init[j] == os[j];
        }
      }
      if exists j :: 0 <= j < |init| && init[j].Resolved? && init[j].route.Entry().fileFullpath == k {
        var j :| 0 <= j < |init| && init[j].Resolved? && init[j].route.Entry().fileFullpath == k;
        assert os[j] == init[j];
      }
    }
  }

  /** What the create handler does to the maps and the log: nothing for a file
      that is not a route; otherwise one logged run of the new resolver, whose
      success adds it to both maps and whose failure leaves them as they were. */
  ghost predicate CreateEffect(cfg: Config, file: string,
                               resolvers: Dict<RouteResolver>, routes: Dict<RouteResolverEntry>, log: seq<Outcome>,
                               resolvers': Dict<RouteResolver>, routes': Dict<RouteResolverEntry>, log': seq<Outcome>)
    requires resolvers.Valid() && routes.Valid()
  {
    var created := CreatedResolver(cfg, file);
    && (created.None? ==> resolvers' == resolvers && routes' == routes && log' == log)
    && (created.Some? ==>
          && |log'| == |log| + 1 && log'[..|log|] == log
          && var o := log'[|log|];
          && o.name == created.value.name
          && (o.Resolved? ==>
                && o.route.Entry() == created.value.entry
                && resolvers' == resolvers.Set(file, created.value)
                && routes' == routes.Set(created.value.entry.fileFullpath, o.route))
          && (o.Failed? ==> resolvers' == resolvers && routes' == routes))
  }

  /** What the update handler does: the related resolvers, selected from the maps
      before any runs, run in order and are logged; the routes follow their
      outcomes and the resolvers stay as they were. */
  ghost predicate UpdateEffect(file: string,
                               resolvers: Dict<RouteResolver>, routes: Dict<RouteResolverEntry>, log: seq<Outcome>,
                               resolvers': Dict<RouteResolver>, routes': Dict<RouteResolverEntry>, log': seq<Outcome>)
    requires routes.Valid()
  {
    var rs := Related(resolvers, routes, file).Values();
    && resolvers' == resolvers
    && |log'| == |log| + |rs| && log'[..|log|] == log
    && (forall i :: 0 <= i < |rs| ==>
          && log'[|log| + i].name == rs[i].name
          && (log'[|log| + i].Resolved? ==> log'[|log| + i].route.Entry() == rs[i].entry))
    && routes' == ApplyOutcomes(routes, log'[|log|..])
  }

  class Worker {
    const disk: Disk
    const env: Env
    const behaviour: WatchBehaviour
    var resolvers: Dict<RouteResolver>          // by file
    var resolvedRoutes: Dict<RouteResolverEntry>  // by full path
    var watchHandlers: seq<string>
    var outcomes: seq<Outcome>                  // the resolver runs, in order
    var runs: seq<Run>                          // the watch-handler calls, in order

    ghost predicate Valid()
      reads this
    {
      env.cfg.Valid() && resolvers.Valid() && resolvedRoutes.Valid() && Keyed(resolvedRoutes)
    }

    /** Module start-up: the resolvers of the discovered route files, nothing
        resolved and no handler registered yet. */
    constructor(disk: Disk, env: Env, behaviour: WatchBehaviour, routeFiles: seq<string>)
      requires env.cfg.Valid()
      ensures this.disk == disk && this.env == env && this.behaviour == behaviour
      ensures Valid() && resolvedRoutes.keys == [] && outcomes == [] && watchHandlers == [] && runs == []
      ensures WellKeyed(resolvers, Entries(env.cfg, routeFiles)) && ApiFirst(resolvers)
      ensures forall e :: e in Entries(env.cfg, routeFiles) ==> e.fileFullpath in resolvers.vals
    {
      var rs := ResolversFactory(env.cfg, routeFiles);
      this.disk := disk;
      this.env := env;
      this.behaviour := behaviour;
      resolvers := rs;
      resolvedRoutes := Empty();
      watchHandlers := [];
      outcomes := [];
      runs := [];
    }

    /** One guarded resolver run: on success the route is stored under its full
        path; either way the outcome is logged. */
    method Apply(resolver: RouteResolver, updatedFile: Option<string>)
      requires Valid()
      modifies this, disk
      ensures Valid()
      ensures unchanged(this`resolvers, this`watchHandlers, this`runs)
      ensures |outcomes| == |old(outcomes)| + 1 && outcomes[..|old(outcomes)|] == old(outcomes)
      ensures var o := outcomes[|old(outcomes)|];
        && o.name == resolver.name
        && (o.Resolved? ==>
              && o.route.Entry() == resolver.entry
              && resolvedRoutes == old(resolvedRoutes).Set(resolver.entry.fileFullpath, o.route))
        && (o.Failed? ==> unchanged(this`resolvedRoutes))
    {
      var r := RunResolver(disk, env, resolver, updatedFile);
      if r.Success? {
        resolvedRoutes := resolvedRoutes.Set(r.value.Entry().fileFullpath, r.value);
        outcomes := outcomes + [Resolved(resolver.name, r.value)];
      } else {
        outcomes := outcomes + [Failed(resolver.name, r.error)];
      }
    }

    /** The `try` block of the create handler: run the new resolver; on success
        record it under `file` and its route under the route's full path. */
    method Register(file: string, resolver: RouteResolver)
      requires Valid()
      modifies this, disk
      ensures Valid()
      ensures unchanged(this`watchHandlers, this`runs)
      ensures |outcomes| == |old(outcomes)| + 1 && outcomes[..|old(outcomes)|] == old(outcomes)
      ensures var o := outcomes[|old(outcomes)|];
        && o.name == resolver.name
        && (o.Resolved? ==>
              && o.route.Entry() == resolver.entry
              && resolvers == old(resolvers).Set(file, resolver)
              && resolvedRoutes == old(resolvedRoutes).Set(resolver.entry.fileFullpath, o.route))
        && (o.Failed? ==> unchanged(this`resolvers, this`resolvedRoutes))
    {
      Apply(resolver, None);
      if outcomes[|outcomes| - 1].Resolved? {
        resolvers := resolvers.Set(file, resolver);
      }
    }

    /** `createEventHandler(file)`: both maps gain the new route only when its
        handler succeeds; a failure, or a file that is not a route, leaves them as
        they were. */
    method CreateEvent(file: string) returns (created: Option<RouteResolver>)
      requires Valid()
      modifies this, disk
      ensures Valid()
      ensures created == CreatedResolver(env.cfg, file)
      ensures unchanged(this`watchHandlers, this`runs)
      ensures created.None? ==> unchanged(this`resolvers, this`resolvedRoutes, this`outcomes)
      ensures created.Some? ==>
        && |outcomes| == |old(outcomes)| + 1 && outcomes[..|old(outcomes)|] == old(outcomes)
        && var o := outcomes[|old(outcomes)|];
        && o.name == created.value.name
        && (o.Resolved? ==>
              && o.route.Entry() == created.value.entry
              && resolvers == old(resolvers).Set(file, created.value)
              && resolvedRoutes == old(resolvedRoutes).Set(created.value.entry.fileFullpath, o.route))
        && (o.Failed? ==> unchanged(this`resolvers, this`resolvedRoutes))
    {
      created := FirstResolver(env.cfg, file);
      if created.Some? {
        Register(file, created.value);
      }
    }

    /** The `relatedResolvers` map, built as the update handler builds it. */
    method SelectRelated(file: string) returns (rel: Dict<RouteResolver>)
      requires Valid()
      ensures rel == Related(resolvers, resolvedRoutes, file)
    {
      rel := Empty();
      if file in resolvedRoutes.vals {
        if file in resolvers.vals {
          rel := rel.Set(file, resolvers.vals[file]);
        }
      } else {
        var routes := resolvedRoutes.Values();
        for i := 0 to |routes|
          invariant rel.Valid()
          invariant Referencing(routes[i..], resolvers, file, rel) == Related(resolvers, resolvedRoutes, file)
        {
          assert routes[i..][1..] == routes[i + 1..];
          var e := routes[i];
          if e.ApiEntry? && file in e.api.referencedFiles {
            var fp := e.api.entry.fileFullpath;
            if fp in resolvers.vals {
              rel := rel.Set(fp, resolvers.vals[fp]);
            }
          }
        }
        assert routes[|routes|..] == [];
      }
    }

    /** The update loop: every resolver of `rs` runs, in order, with the changed
        file; a success replaces its route, a failure is logged, keeps the previous
        route and does not stop the remaining resolvers. */
    method RunRelated(file: string, rs: seq<RouteResolver>)
      requires Valid()
      modifies this, disk
      ensures Valid()
      ensures unchanged(this`resolvers, this`watchHandlers, this`runs)
      ensures |outcomes| == |old(outcomes)| + |rs| && outcomes[..|old(outcomes)|] == old(outcomes)
      ensures forall i :: 0 <= i < |rs| ==>
        && outcomes[|old(outcomes)| + i].name == rs[i].name
        && (outcomes[|old(outcomes)| + i].Resolved? ==> outcomes[|old(outcomes)| + i].route.Entry() == rs[i].entry)
      ensures resolvedRoutes == ApplyOutcomes(old(resolvedRoutes), outcomes[|old(outcomes)|..])
    {
      ghost var n := |outcomes|;
      ghost var before := resolvedRoutes;
      for i := 0 to |rs|
        invariant Valid()
        invariant unchanged(this`resolvers, this`watchHandlers, this`runs)
        invariant |outcomes| == n + i && outcomes[..n] == old(outcomes)
        invariant forall j :: 0 <= j < i ==>
          && outcomes[n + j].name == rs[j].name
          && (outcomes[n + j].Resolved? ==> outcomes[n + j].route.Entry() == rs[j].entry)
        invariant resolvedRoutes == ApplyOutcomes(before, outcomes[n..])
      {
        ghost var prev := outcomes;
        Apply(rs[i], Some(file));
        assert outcomes[n..][..i] == prev[n..];
      }
    }

    /** `updateEventHandler(file)`: the related resolvers, selected before any of
        them runs, run in order as `RunRelated` states. */
    method UpdateEvent(file: string) returns (rs: seq<RouteResolver>)
      requires Valid()
      modifies this, disk
      ensures Valid()
      ensures rs == Related(old(resolvers), old(resolvedRoutes), file).Values()
      ensures unchanged(this`resolvers, this`watchHandlers, this`runs)
      ensures |outcomes| == |old(outcomes)| + |rs| && outcomes[..|old(outcomes)|] == old(outcomes)
      ensures forall i :: 0 <= i < |rs| ==>
        && outcomes[|old(outcomes)| + i].name == rs[i].name
        && (outcomes[|old(outcomes)| + i].Resolved? ==> outcomes[|old(outcomes)| + i].route.Entry() == rs[i].entry)
      ensures resolvedRoutes == ApplyOutcomes(old(resolvedRoutes), outcomes[|old(outcomes)|..])
    {
      var rel := SelectRelated(file);
      RelatedSpec(resolvers, resolvedRoutes, file);
      rs := rel.Values();
      RunRelated(file, rs);
    }

    /** `runWatchHandlers(event)`: every registered handler runs, in registration
        order, on the same snapshot of the resolved routes; a failing handler does
        not skip the later ones and no handler changes the routes. */
    method RunWatchHandlers(event: Option<WatcherEvent>)
      requires Valid()
      modifies this
      ensures Valid()
      ensures unchanged(this`resolvers, this`resolvedRoutes, this`outcomes, this`watchHandlers)
      ensures Ran(old(runs), runs, watchHandlers, resolvedRoutes.Values(), event, behaviour)
    {
      var routes := resolvedRoutes.Values();
      for i := 0 to |watchHandlers|
        invariant unchanged(this`resolvers, this`resolvedRoutes, this`outcomes, this`watchHandlers)
        invariant Ran(old(runs), runs, watchHandlers[..i], routes, event, behaviour)
      {
        var ok := behaviour(watchHandlers[i], routes, event);
        RanStep(old(runs), runs, watchHandlers[..i], watchHandlers[i], routes, event, behaviour);
        assert watchHandlers[..i + 1] == watchHandlers[..i] + [watchHandlers[i]];
        runs := runs + [Run(watchHandlers[i], routes, event, ok)];
      }
      assert watchHandlers[..|watchHandlers|] == watchHandlers;
    }

    /** The state handler an event kind selects: create, update, or the delete
        handler, which does nothing. */
    method HandleEvent(kind: EventKind, file: string)
      requires Valid()
      modifies this, disk
      ensures Valid()
      ensures unchanged(this`watchHandlers, this`runs)
      ensures kind == Create ==>
        CreateEffect(env.cfg, file, old(resolvers), old(resolvedRoutes), old(outcomes), resolvers, resolvedRoutes, outcomes)
      ensures kind == Update ==>
        UpdateEffect(file, old(resolvers), old(resolvedRoutes), old(outcomes), resolvers, resolvedRoutes, outcomes)
      ensures kind == Delete ==> unchanged(this`resolvers, this`resolvedRoutes, this`outcomes)
    {
      match kind
      case Create =>
        var _ := CreateEvent(file);
      case Update =>
        var _ := UpdateEvent(file);
      case Delete =>
    }

    /** The `watcher.on("all")` listener: directory events and files that are not
        route files are ignored; `add`, `change` and `unlink` run the create,
        update and delete handlers, and only then the generators, with the event. */
    method Dispatch(eventName: string, file: string)
      requires Valid()
      modifies this, disk
      ensures Valid()
      ensures unchanged(this`watchHandlers)
      ensures EndsWith(eventName, "Dir") || !IsRouteFile(env.cfg, file) || EventKindOf(eventName).None? ==>
        unchanged(this`resolvers, this`resolvedRoutes, this`outcomes, this`runs) && unchanged(disk)
      ensures !EndsWith(eventName, "Dir") && IsRouteFile(env.cfg, file) && EventKindOf(eventName).Some? ==>
        Ran(old(runs), runs, watchHandlers, resolvedRoutes.Values(),
            Some(WatcherEvent(EventKindOf(eventName).value, file)), behaviour)
      // Create and update change the maps as their handlers state, before the generators run.
      ensures !EndsWith(eventName, "Dir") && IsRouteFile(env.cfg, file) && EventKindOf(eventName) == Some(Create) ==>
        CreateEffect(env.cfg, file, old(resolvers), old(resolvedRoutes), old(outcomes), resolvers, resolvedRoutes, outcomes)
      ensures !EndsWith(eventName, "Dir") && IsRouteFile(env.cfg, file) && EventKindOf(eventName) == Some(Update) ==>
        UpdateEffect(file, old(resolvers), old(resolvedRoutes), old(outcomes), resolvers, resolvedRoutes, outcomes)
      // A delete changes no map: the generators alone see it.
      ensures EventKindOf(eventName) == Some(Delete) ==>
        unchanged(this`resolvers, this`resolvedRoutes, this`outcomes)
    {
      if EndsWith(eventName, "Dir") {
        return;
      }
      var isRoute := CheckRouteFile(env.cfg, file);
      if !isRoute {
        return;
      }
      var kind := EventKindOf(eventName);
      if kind.None? {
        return;
      }
      HandleEvent(kind.value, file);
      RunWatchHandlers(Some(WatcherEvent(kind.value, file)));
    }

    /** The first start-up pass: every resolver runs once, in map order, and the
        routes of those that succeed are stored. */
    method ResolveAll()
      requires Valid() && outcomes == []
      modifies this, disk
      ensures Valid() && unchanged(this`resolvers, this`watchHandlers, this`runs)
      ensures |outcomes| == |resolvers.keys|
      ensures forall j :: 0 <= j < |outcomes| ==>
        && outcomes[j].name == resolvers.vals[resolvers.keys[j]].name
        && (outcomes[j].Resolved? ==> outcomes[j].route.Entry() == resolvers.vals[resolvers.keys[j]].entry)
      ensures resolvedRoutes == ApplyOutcomes(old(resolvedRoutes), outcomes)
    {
      var keys := resolvers.keys;
      ghost var before := resolvedRoutes;
      for i := 0 to |keys|
        invariant Valid() && unchanged(this`resolvers, this`watchHandlers, this`runs)
        invariant |outcomes| == i
        invariant forall j :: 0 <= j < i ==>
          && outcomes[j].name == resolvers.vals[keys[j]].name
          && (outcomes[j].Resolved? ==> outcomes[j].route.Entry() == resolvers.vals[keys[j]].entry)
        invariant resolvedRoutes == ApplyOutcomes(before, outcomes)
      {
        ghost var prev := outcomes;
        Apply(resolvers.vals[keys[i]], None);
        assert outcomes[..i] == prev;
      }
    }

    /** The second start-up pass: the generators whose factory resolves are
        registered, in order; a failing factory is skipped. */
    method InitGenerators(gens: seq<GeneratorInit>)
      requires watchHandlers == []
      modifies this
      ensures unchanged(this`resolvers, this`resolvedRoutes, this`outcomes, this`runs)
      ensures watchHandlers == Registered(gens)
    {
      for i := 0 to |gens|
        invariant unchanged(this`resolvers, this`resolvedRoutes, this`outcomes, this`runs)
        invariant watchHandlers == Registered(gens[..i])
      {
        assert gens[..i + 1][..i] == gens[..i];
        if gens[i].initOk {
          watchHandlers := watchHandlers + [gens[i].name];
        }
      }
      assert gens[..|gens|] == gens;
    }

    /** The start-up sequence: resolve every route, register the generators, then
        run every handler once with no event. */
    method Start(gens: seq<GeneratorInit>)
      requires Valid() && resolvedRoutes.keys == [] && outcomes == [] && watchHandlers == [] && runs == []
      requires forall k :: k in resolvers.vals ==> resolvers.vals[k].entry.fileFullpath == k
      modifies this, disk
      ensures Valid() && unchanged(this`resolvers)
      ensures |outcomes| == |resolvers.keys|
      ensures forall j :: 0 <= j < |outcomes| ==>
        && outcomes[j].name == resolvers.vals[resolvers.keys[j]].name
        && (outcomes[j].Resolved? ==> outcomes[j].route.Entry() == resolvers.vals[resolvers.keys[j]].entry)
      // The resolved routes are exactly those whose resolver succeeded.
      ensures forall k :: k in resolvedRoutes.vals <==>
        exists j :: 0 <= j < |outcomes| && outcomes[j].Resolved? && resolvers.keys[j] == k
      ensures watchHandlers == Registered(gens)
      ensures Ran([], runs, watchHandlers, resolvedRoutes.Values(), None, behaviour)
    {
      ghost var empty := resolvedRoutes;
      ResolveAll();
      forall k
        ensures k in resolvedRoutes.vals <==>
          exists j :: 0 <= j < |outcomes| && outcomes[j].Resolved? && resolvers.keys[j] == k
      {
        ApplyKeysExactly(empty, outcomes, k);
        assert k !in empty.vals;
        if exists j :: 0 <= j < |outcomes| && outcomes[j].Resolved? && resolvers.keys[j] == k {
          var j :| 0 <= j < |outcomes| && outcomes[j].Resolved? && resolvers.keys[j] == k;
          assert resolvers.keys[j] in resolvers.vals;
        }
      }
      InitGenerators(gens);
      RunWatchHandlers(None);
    }
  }
}
