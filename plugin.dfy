/** The Vite plugin itself (packages/core/dev/src/base-plugin/index.ts): the fixed
    order in which generators run, the module references handed to the worker,
    the one-shot pass of a production build, and the host-side bookkeeping of
    the worker's progress, error and ready messages. */
module Plugin {
  import opened Wrappers
  import opened Text
  import opened OrderedMap
  import opened Types
  import opened Routes
  import opened Cache
  import opened Resolver
  import opened Worker

  /** `generators.find((e) => e.kind === k)`. */
  function FirstOfKind(gens: seq<GeneratorConstructor>, k: GeneratorKind): (r: Option<GeneratorConstructor>)
    ensures r.Some? ==> r.value in gens && r.value.kind == Some(k)
    ensures r.None? <==> forall g :: g in gens ==> g.kind != Some(k)
    decreases |gens|
  {
    if |gens| == 0 then None
    else if gens[0].kind == Some(k) then Some(gens[0])
    else
      assert forall g :: g in gens <==> g == gens[0] || g in gens[1..];
      FirstOfKind(gens[1..], k)
  }

  /** Generator `i` is the first of kind `k`. */
  predicate IsFirstOfKind(gens: seq<GeneratorConstructor>, k: GeneratorKind, i: int) {
    0 <= i < |gens| && gens[i].kind == Some(k) && forall j :: 0 <= j < i ==> gens[j].kind != Some(k)
  }

  /** The generator found is the first of its kind. */
  lemma {:induction false} FirstOfKindIsFirst(gens: seq<GeneratorConstructor>, k: GeneratorKind, i: nat)
    requires IsFirstOfKind(gens, k, i)
    ensures FirstOfKind(gens, k) == Some(gens[i])
  {
    if i > 0 {
      FirstOfKindIsFirst(gens[1..], k, i - 1);
    }
  }

  /** `generators.filter((e) => e.kind ? !["api", "fetch", "ssr"].includes(e.kind) : true)`:
      every kind a generator may declare is reserved, so these are the generators
      without a kind. */
  function UserGenerators(gens: seq<GeneratorConstructor>): (r: seq<GeneratorConstructor>)
    ensures |r| <= |gens|
    ensures forall g :: g in r <==> g in gens && g.kind.None?
    decreases |gens|
  {
    if |gens| == 0 then []
    else
      assert forall g :: g in gens <==> g == gens[0] || g in gens[1..];
      (if gens[0].kind.None? then [gens[0]] else []) + UserGenerators(gens[1..])
  }

  /** The filter keeps the order of the generators it keeps. */
  lemma {:induction false} UserGeneratorsAppend(a: seq<GeneratorConstructor>, b: seq<GeneratorConstructor>)
    ensures UserGenerators(a + b) == UserGenerators(a) + UserGenerators(b)
    decreases |a|
  {
    if |a| > 0 {
      assert (a + b)[1..] == a[1..] + b;
      UserGeneratorsAppend(a[1..], b);
    } else {
      assert a + b == b;
    }
  }

  /** The resolved `generators` list: the stub generator, the API generator (the
      user's if one is configured), the fetch generator (likewise), the user
      generators in their order, and the SSR generator last when one is configured. */
  function Ordered(stub: GeneratorConstructor, builtinApi: GeneratorConstructor,
                   builtinFetch: GeneratorConstructor, gens: seq<GeneratorConstructor>): seq<GeneratorConstructor> {
    [stub, FirstOfKind(gens, ApiKind).GetOr(builtinApi), FirstOfKind(gens, FetchKind).GetOr(builtinFetch)]
      + UserGenerators(gens)
      + (match FirstOfKind(gens, SsrKind) case Some(g) => [g] case None => [])
  }

  /** How many generators of a kind a list holds. */
  function CountKind(gens: seq<GeneratorConstructor>, k: GeneratorKind): nat
    decreases |gens|
  {
    if |gens| == 0 then 0
    else (if gens[0].kind == Some(k) then 1 else 0) + CountKind(gens[1..], k)
  }

  lemma {:induction false} CountKindAppend(a: seq<GeneratorConstructor>, b: seq<GeneratorConstructor>, k: GeneratorKind)
    ensures CountKind(a + b, k) == CountKind(a, k) + CountKind(b, k)
    decreases |a|
  {
    if |a| > 0 {
      assert (a + b)[1..] == a[1..] + b;
      CountKindAppend(a[1..], b, k);
    } else {
      assert a + b == b;
    }
  }

  lemma {:induction false} CountKindNone(gens: seq<GeneratorConstructor>, k: GeneratorKind)
    requires forall g :: g in gens ==> g.kind != Some(k)
    ensures CountKind(gens, k) == 0
    decreases |gens|
  {
    if |gens| > 0 {
      assert gens[0] in gens;
      assert forall g :: g in gens[1..] ==> g in gens;
      CountKindNone(gens[1..], k);
    }
  }

  /** Positions in the resolved list: the stub first; then an API and a fetch
      generator, each the first of its kind in the configuration when there is
      one and the built-in one otherwise; then the user generators in their
      order; and last the first SSR generator, when one is configured. */
  lemma GeneratorOrder(stub: GeneratorConstructor, builtinApi: GeneratorConstructor,
                       builtinFetch: GeneratorConstructor, gens: seq<GeneratorConstructor>)
    requires builtinApi.kind == Some(ApiKind) && builtinFetch.kind == Some(FetchKind)
    ensures var r := Ordered(stub, builtinApi, builtinFetch, gens);
      var users := UserGenerators(gens);
      && 3 + |users| <= |r| <= 4 + |users|
      && r[0] == stub
      && r[1].kind == Some(ApiKind) && r[2].kind == Some(FetchKind)
      && r[3..3 + |users|] == users
      && (forall i :: IsFirstOfKind(gens, ApiKind, i) ==> r[1] == gens[i])
      && ((forall g :: g in gens ==> g.kind != Some(ApiKind)) ==> r[1] == builtinApi)
      && (forall i :: IsFirstOfKind(gens, FetchKind, i) ==> r[2] == gens[i])
      && ((forall g :: g in gens ==> g.kind != Some(FetchKind)) ==> r[2] == builtinFetch)
      && (|r| == 4 + |users| <==> exists g :: g in gens && g.kind == Some(SsrKind))
      && (forall i :: IsFirstOfKind(gens, SsrKind, i) ==> r[|r| - 1] == gens[i])
  {
    forall i | IsFirstOfKind(gens, ApiKind, i)
      ensures FirstOfKind(gens, ApiKind) == Some(gens[i])
    {
      FirstOfKindIsFirst(gens, ApiKind, i);
    }
    forall i | IsFirstOfKind(gens, FetchKind, i)
      ensures FirstOfKind(gens, FetchKind) == Some(gens[i])
    {
      FirstOfKindIsFirst(gens, FetchKind, i);
    }
    forall i | IsFirstOfKind(gens, SsrKind, i)
      ensures FirstOfKind(gens, SsrKind) == Some(gens[i])
    {
      FirstOfKindIsFirst(gens, SsrKind, i);
    }
  }

  /** Exactly one API and one fetch generator run, and at most one SSR generator:
      later generators of a reserved kind are dropped. */
  lemma GeneratorKindsOnce(stub: GeneratorConstructor, builtinApi: GeneratorConstructor,
                           builtinFetch: GeneratorConstructor, gens: seq<GeneratorConstructor>)
    requires stub.kind.None?
    requires builtinApi.kind == Some(ApiKind) && builtinFetch.kind == Some(FetchKind)
    ensures var r := Ordered(stub, builtinApi, builtinFetch, gens);
      && CountKind(r, ApiKind) == 1
      && CountKind(r, FetchKind) == 1
      && CountKind(r, SsrKind) == (if exists g :: g in gens && g.kind == Some(SsrKind) then 1 else 0)
  {
    var api := FirstOfKind(gens, ApiKind).GetOr(builtinApi);
    var fetch := FirstOfKind(gens, FetchKind).GetOr(builtinFetch);
    var head := [stub, api, fetch];
    var users := UserGenerators(gens);
    var ssr := match FirstOfKind(gens, SsrKind) case Some(g) => [g] case None => [];
    assert Ordered(stub, builtinApi, builtinFetch, gens) == head + users + ssr;
    forall k: GeneratorKind
      ensures CountKind(head + users + ssr, k) == CountKind(head, k) + CountKind(ssr, k)
    {
      CountKindAppend(head + users, ssr, k);
      CountKindAppend(head, users, k);
      CountKindNone(users, k);
    }
    forall k: GeneratorKind
      ensures CountKind(head, k) ==
        (if stub.kind == Some(k) then 1 else 0) + (if api.kind == Some(k) then 1 else 0)
          + (if fetch.kind == Some(k) then 1 else 0)
    {
      assert head[1..] == [api, fetch] && head[1..][1..] == [fetch] && head[1..][1..][1..] == [];
      assert CountKind(head[1..][1..], k) == (if fetch.kind == Some(k) then 1 else 0);
      assert CountKind(head[1..], k) == (if api.kind == Some(k) then 1 else 0) + CountKind(head[1..][1..], k);
    }
    forall k: GeneratorKind
      ensures CountKind(ssr, k) ==
        (if ssr != [] && FirstOfKind(gens, SsrKind).value.kind == Some(k) then 1 else 0)
    {
      if ssr != [] {
        assert ssr[1..] == [];
      }
    }
  }

  /** `generatorModules`: the `(moduleImport, moduleConfig)` pair of each resolved
      generator. */
  function Modules(gens: seq<GeneratorConstructor>): (r: seq<(string, string)>)
    ensures |r| == |gens|
    decreases |gens|
  {
    if |gens| == 0 then []
    else [(gens[0].moduleImport, gens[0].moduleConfig)] + Modules(gens[1..])
  }

  /** The worker rebuilding its generators from the pairs (worker.ts:51-53): each
      module imported and its default export called on the config. */
  function Reimport(mods: seq<(string, string)>, load: (string, string) -> GeneratorConstructor)
    : (r: seq<GeneratorConstructor>)
    ensures |r| == |mods|
    decreases |mods|
  {
    if |mods| == 0 then []
    else [load(mods[0].0, mods[0].1)] + Reimport(mods[1..], load)
  }

  /** Handing the pairs over keeps the generators and their order, as long as each
      module's default export rebuilds the generator it came from. */
  lemma {:induction false} ModulesRoundTrip(gens: seq<GeneratorConstructor>, load: (string, string) -> GeneratorConstructor)
    requires forall i :: 0 <= i < |gens| ==> load(gens[i].moduleImport, gens[i].moduleConfig) == gens[i]
    ensures Reimport(Modules(gens), load) == gens
    decreases |gens|
  {
    if |gens| > 0 {
      assert Modules(gens)[1..] == Modules(gens[1..]);
      ModulesRoundTrip(gens[1..], load);
    }
  }

  /** The index of the generator that stops a build: the first whose factory or
      watch handler throws, or `|gens|` when none does. */
  function FirstFailure(gens: seq<GeneratorInit>, routes: seq<RouteResolverEntry>, behaviour: WatchBehaviour): (r: nat)
    ensures r <= |gens|
    ensures forall j :: 0 <= j < r ==> gens[j].initOk && behaviour(gens[j].name, routes, None)
    ensures r < |gens| ==> !(gens[r].initOk && behaviour(gens[r].name, routes, None))
    decreases |gens|
  {
    if |gens| == 0 then 0
    else if !(gens[0].initOk && behaviour(gens[0].name, routes, None)) then 0
    else 1 + FirstFailure(gens[1..], routes, behaviour)
  }

  /** `runs` holds one call per generator up to and including the one whose
      handler threw (none for a generator whose factory threw), each on all
      routes with no event; `ok` says that no generator stopped the pass. */
  predicate RanUntilFailure(gens: seq<GeneratorInit>, routes: seq<RouteResolverEntry>, behaviour: WatchBehaviour,
                            runs: seq<Run>, ok: bool) {
    var f := FirstFailure(gens, routes, behaviour);
    && (ok <==> f == |gens|)
    && |runs| == (if f < |gens| && gens[f].initOk then f + 1 else f)
    && forall j :: 0 <= j < |runs| ==>
         runs[j] == Run(gens[j].name, routes, None, behaviour(gens[j].name, routes, None))
  }

  /** No page route comes before an API route. */
  predicate ApiRoutesFirst(routes: seq<RouteResolverEntry>) {
    forall i, j :: 0 <= i < j < |routes| && routes[i].Entry().folder != ApiDir ==>
      routes[j].Entry().folder != ApiDir
  }

  /** The generator loop of a build: each factory is called and its watch handler
      run once on all routes with no event, in order; nothing is caught, so the
      first factory or handler that throws ends the pass. */
  method RunGeneratorsOnce(gens: seq<GeneratorInit>, routes: seq<RouteResolverEntry>, behaviour: WatchBehaviour)
    returns (runs: seq<Run>, ok: bool)
    ensures RanUntilFailure(gens, routes, behaviour, runs, ok)
  {
    runs := [];
    var i := 0;
    while i < |gens|
      invariant 0 <= i <= |gens| && |runs| == i
      invariant forall j :: 0 <= j < i ==> gens[j].initOk && behaviour(gens[j].name, routes, None)
      invariant forall j :: 0 <= j < i ==>
        runs[j] == Run(gens[j].name, routes, None, behaviour(gens[j].name, routes, None))
    {
      if !gens[i].initOk {
        ok := false;
        return;
      }
      var done := behaviour(gens[i].name, routes, None);
      runs := runs + [Run(gens[i].name, routes, None, done)];
      if !done {
        ok := false;
        return;
      }
      i := i + 1;
    }
    ok := true;
  }

  /** The resolver loop of a build: every resolver in map order, stopping at the
      first that throws. */
  method ResolveOnce(disk: Disk, env: Env, resolvers: Dict<RouteResolver>)
    returns (routes: seq<RouteResolverEntry>, ok: bool)
    requires env.cfg.Valid() && resolvers.Valid()
    modifies disk
    ensures disk.files == old(disk.files)
    ensures ok ==> |routes| == |resolvers.keys|
    ensures !ok ==> |routes| < |resolvers.keys|
    ensures forall i :: 0 <= i < |routes| ==> routes[i].Entry() == resolvers.vals[resolvers.keys[i]].entry
  {
    routes := [];
    var keys := resolvers.keys;
    for i := 0 to |keys|
      invariant |routes| == i
      invariant disk.files == old(disk.files)
      invariant forall j :: 0 <= j < i ==> routes[j].Entry() == resolvers.vals[keys[j]].entry
    {
      var r := RunResolver(disk, env, resolvers.vals[keys[i]], None);
      if r.Failure? {
        ok := false;
        return;
      }
      routes := routes + [r.value];
    }
    ok := true;
  }

  /** A resolver loop that went through every resolver produced a route for every
      entry the resolvers were built from. */
  lemma EveryEntryResolved(resolvers: Dict<RouteResolver>, routes: seq<RouteResolverEntry>, entries: seq<RouteEntry>)
    requires resolvers.Valid() && WellKeyed(resolvers, entries)
    requires forall e :: e in entries ==> e.fileFullpath in resolvers.vals
    requires |routes| == |resolvers.keys|
    requires forall i :: 0 <= i < |routes| ==> routes[i].Entry() == resolvers.vals[resolvers.keys[i]].entry
    ensures forall e :: e in entries ==>
      exists i :: 0 <= i < |routes| && routes[i].Entry().fileFullpath == e.fileFullpath
  {
    forall e | e in entries
      ensures exists i :: 0 <= i < |routes| && routes[i].Entry().fileFullpath == e.fileFullpath
    {
      var i :| 0 <= i < |resolvers.keys| && resolvers.keys[i] == e.fileFullpath;
      assert routes[i].Entry().fileFullpath == e.fileFullpath;
    }
  }

  /** The `command === "build"` branch of `configResolved`: every route file
      resolved, then every generator run once on all routes. */
  method BuildPass(disk: Disk, env: Env, routeFiles: seq<string>,
                   gens: seq<GeneratorInit>, behaviour: WatchBehaviour)
    returns (routes: seq<RouteResolverEntry>, runs: seq<Run>, resolved: bool, ok: bool)
    requires env.cfg.Valid()
    modifies disk
    ensures disk.files == old(disk.files)
    ensures forall i :: 0 <= i < |routes| ==> routes[i].Entry() in Entries(env.cfg, routeFiles)
    ensures ApiRoutesFirst(routes)
    ensures !resolved ==> runs == [] && !ok
    ensures resolved ==>
      forall e :: e in Entries(env.cfg, routeFiles) ==>
        exists i :: 0 <= i < |routes| && routes[i].Entry().fileFullpath == e.fileFullpath
    ensures resolved ==> RanUntilFailure(gens, routes, behaviour, runs, ok)
  {
    var resolvers := ResolversFactory(env.cfg, routeFiles);
    routes, resolved := ResolveOnce(disk, env, resolvers);
    assert ApiRoutesFirst(routes) by {
      forall i, j | 0 <= i < j < |routes| && routes[i].Entry().folder != ApiDir
        ensures routes[j].Entry().folder != ApiDir
      {
        assert resolvers.vals[resolvers.keys[i]].entry.folder != ApiDir;
      }
    }
    if !resolved {
      runs, ok := [], false;
      return;
    }
    EveryEntryResolved(resolvers, routes, Entries(env.cfg, routeFiles));
    runs, ok := RunGeneratorsOnce(gens, routes, behaviour);
  }

  /** The keys of `SpinnerFactory` a progress message may name. */
  datatype SpinnerMethod = TextMethod | AppendMethod | SucceedMethod | FailedMethod {
    predicate Settles() {
      this == SucceedMethod || this == FailedMethod
    }
  }

  /** `{spinner: {id, startText, method, text}}`. */
  datatype SpinnerUpdate = SpinnerUpdate(id: string, startText: string, call: SpinnerMethod, text: Option<string>)

  /** The error object the worker reports. */
  datatype WorkerError = WorkerError(name: string, message: string, stack: Option<string>)

  /** A message from the worker: a progress update, an error, or a bare string
      (the worker sends `"ready"` once its first pass is done). */
  datatype Message = ProgressMsg(update: SpinnerUpdate) | ErrorMsg(error: WorkerError) | TextMsg(text: string)

  /** A spinner on the host's terminal: the text it started with and the calls it
      received, in order. */
  datatype Spinner = Spinner(startText: string, calls: seq<(SpinnerMethod, string)>)

  /** What the host prints for a reported error: the first stack line and the rest
      of the stack, or `name: message`, or the raw object. */
  datatype ErrorReport = StackReport(headline: string, trace: string)
                       | MessageReport(name: string, message: string)
                       | RawReport(error: WorkerError)

  /** One progress message: the spinner stored under the id (a new one started
      with `startText` when there is none) gets the call; a spinner that
      succeeded or failed leaves the map. */
  function SpinnerStep(m: map<string, Spinner>, u: SpinnerUpdate): (r: map<string, Spinner>)
    ensures u.call.Settles() <==> u.id !in r
    ensures forall k :: k != u.id ==> (k in r <==> k in m) && (k in r ==> r[k] == m[k])
    ensures u.id in r ==>
      r[u.id].startText == (if u.id in m then m[u.id].startText else u.startText)
  {
    var s := if u.id in m then m[u.id] else Spinner(u.startText, []);
    var s' := s.(calls := s.calls + [(u.call, u.text.GetOr(""))]);
    if u.call.Settles() then m - {u.id} else m[u.id := s']
  }

  /** The spinner map after a stream of progress messages. */
  function Spinners(m: map<string, Spinner>, us: seq<SpinnerUpdate>): map<string, Spinner>
    decreases |us|
  {
    if |us| == 0 then m else SpinnerStep(Spinners(m, us[..|us| - 1]), us[|us| - 1])
  }

  /** The progress messages of a stream, in order. */
  function Updates(msgs: seq<Message>): seq<SpinnerUpdate>
    decreases |msgs|
  {
    if |msgs| == 0 then []
    else
      var last := msgs[|msgs| - 1];
      Updates(msgs[..|msgs| - 1]) + (if last.ProgressMsg? then [last.update] else [])
  }

  /** The last progress message for an id. */
  function LastFor(us: seq<SpinnerUpdate>, id: string): (r: Option<SpinnerUpdate>)
    ensures r.Some? ==> r.value in us && r.value.id == id
    ensures r.None? <==> forall u :: u in us ==> u.id != id
    decreases |us|
  {
    if |us| == 0 then None
    else if us[|us| - 1].id == id then Some(us[|us| - 1])
    else
      assert forall u :: u in us <==> u in us[..|us| - 1] || u == us[|us| - 1];
      LastFor(us[..|us| - 1], id)
  }

  /** A spinner is in the map exactly while the last message for its id neither
      succeeded nor failed; ids no message names keep their state. */
  lemma {:induction false} SpinnerLive(m: map<string, Spinner>, us: seq<SpinnerUpdate>, id: string)
    ensures id in Spinners(m, us) <==>
      match LastFor(us, id)
      case Some(u) => !u.call.Settles()
      case None => id in m
    decreases |us|
  {
    if |us| > 0 {
      SpinnerLive(m, us[..|us| - 1], id);
    }
  }

  /** The error listener's output. */
  function Report(e: WorkerError): ErrorReport {
    if e.stack.Some? && e.stack.value != "" then
      var lines := Split(e.stack.value, '\n');
      StackReport(lines[0], Join(lines[1..], "\n"))
    else if e.message != "" then MessageReport(e.name, e.message)
    else RawReport(e)
  }

  /** A stack report loses nothing: its headline is the first line and, when the
      stack has more lines, the trace is the rest after the first line break. */
  lemma {:induction false} ReportKeepsStack(e: WorkerError)
    requires e.stack.Some? && e.stack.value != ""
    ensures Report(e).StackReport?
    ensures '\n' !in Report(e).headline
    ensures '\n' in e.stack.value ==> e.stack.value == Report(e).headline + "\n" + Report(e).trace
    ensures '\n' !in e.stack.value ==> e.stack.value == Report(e).headline && Report(e).trace == ""
  {
    var s := e.stack.value;
    var lines := Split(s, '\n');
    JoinSplit(s, '\n');
    if |lines| == 1 {
      assert Join(lines, "\n") == lines[0];
      assert lines[1..] == [];
    } else {
      assert Join(lines, "\n") == lines[0] + "\n" + Join(lines[1..], "\n");
      assert s[|lines[0]|] == '\n';
    }
  }

  /** How often `onReady` runs over a stream of messages, from a listener that is
      attached or not. */
  function ReadyCalls(listening: bool, msgs: seq<Message>): nat
    decreases |msgs|
  {
    if |msgs| == 0 then 0
    else if listening && msgs[0] == TextMsg("ready") then 1 + ReadyCalls(false, msgs[1..])
    else ReadyCalls(listening, msgs[1..])
  }

  /** The ready listener removes itself, so `onReady` runs once if `"ready"` ever
      arrives and never otherwise; a detached listener never calls it. */
  lemma {:induction false} ReadyAtMostOnce(listening: bool, msgs: seq<Message>)
    ensures ReadyCalls(listening, msgs) == (if listening && TextMsg("ready") in msgs then 1 else 0)
    decreases |msgs|
  {
    if |msgs| > 0 {
      assert forall m :: m in msgs <==> m == msgs[0] || m in msgs[1..];
      if listening && msgs[0] == TextMsg("ready") {
        ReadyAtMostOnce(false, msgs[1..]);
      } else {
        ReadyAtMostOnce(listening, msgs[1..]);
      }
    }
  }

  /** The spinners after one more message of a stream. */
  lemma SpinnersStep(m: map<string, Spinner>, msgs: seq<Message>, i: nat)
    requires i < |msgs|
    ensures Spinners(m, Updates(msgs[..i + 1])) ==
      (if msgs[i].ProgressMsg? then SpinnerStep(Spinners(m, Updates(msgs[..i])), msgs[i].update)
       else Spinners(m, Updates(msgs[..i])))
  {
    assert msgs[..i + 1][..i] == msgs[..i];
    var us := Updates(msgs[..i]);
    if msgs[i].ProgressMsg? {
      assert (us + [msgs[i].update])[..|us|] == us;
    } else {
      assert us + [] == us;
    }
  }

  /** The ready listener after one more message of a stream. */
  lemma ReadyStep(listening: bool, msgs: seq<Message>, i: nat)
    requires i < |msgs|
    ensures ReadyCalls(listening, msgs[i..]) ==
      (if listening && msgs[i] == TextMsg("ready") then 1 + ReadyCalls(false, msgs[i + 1..])
       else ReadyCalls(listening, msgs[i + 1..]))
    ensures (TextMsg("ready") !in msgs[..i + 1]) ==
      (TextMsg("ready") !in msgs[..i] && msgs[i] != TextMsg("ready"))
  {
    assert msgs[i..][1..] == msgs[i + 1..];
    assert msgs[..i + 1] == msgs[..i] + [msgs[i]];
  }

  /** The host side of `workerHandler`: the spinner map, whether the ready
      listener is still attached, how often `onReady` ran, and what the error
      listener printed. */
  class Host {
    var spinners: map<string, Spinner>
    var listening: bool
    var readyCalls: nat
    var reports: seq<ErrorReport>

    constructor()
      ensures spinners == map[] && listening && readyCalls == 0 && reports == []
    {
      spinners := map[];
      listening := true;
      readyCalls := 0;
      reports := [];
    }

    /** One message, seen by both listeners in the order they were attached. */
    method Receive(msg: Message)
      modifies this
      ensures spinners == (if msg.ProgressMsg? then SpinnerStep(old(spinners), msg.update) else old(spinners))
      ensures reports == old(reports) + (if msg.ErrorMsg? then [Report(msg.error)] else [])
      ensures listening == (old(listening) && msg != TextMsg("ready"))
      ensures readyCalls == old(readyCalls) + (if old(listening) && msg == TextMsg("ready") then 1 else 0)
    {
      match msg {
        case ProgressMsg(u) =>
          spinners := SpinnerStep(spinners, u);
        case ErrorMsg(e) =>
          reports := reports + [Report(e)];
        case TextMsg(_) =>
      }
      if listening && msg == TextMsg("ready") {
        listening := false;
        readyCalls := readyCalls + 1;
      }
    }

    /** A stream of messages, one after another. */
    method ReceiveAll(msgs: seq<Message>)
      modifies this
      ensures readyCalls == old(readyCalls) + ReadyCalls(old(listening), msgs)
      ensures listening == (old(listening) && TextMsg("ready") !in msgs)
      ensures spinners == Spinners(old(spinners), Updates(msgs))
    {
      var i := 0;
      while i < |msgs|
        invariant 0 <= i <= |msgs|
        invariant old(readyCalls) + ReadyCalls(old(listening), msgs)
                  == readyCalls + ReadyCalls(listening, msgs[i..])
        invariant listening == (old(listening) && TextMsg("ready") !in msgs[..i])
        invariant spinners == Spinners(old(spinners), Updates(msgs[..i]))
      {
        SpinnersStep(old(spinners), msgs, i);
        ReadyStep(listening, msgs, i);
        Receive(msgs[i]);
        i := i + 1;
      }
      assert msgs[..i] == msgs;
    }
  }
}
