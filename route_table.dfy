/** The bookkeeping of the wiring pass as values: the four maps the pass keeps
    and the diagnostics it emits, and what visiting one annotation, one port,
    one operation and a whole walk does to them. */
module RouteTable {
  import opened Ir

  datatype DiagKind = AmbiguousSource | MissingSink

  /** A diagnostic reduced to its kind, the route name and the operation whose
      location it is reported at. */
  datatype Diag = Diag(kind: DiagKind, name: string, op: Op)

  /** `sinkOpsMap`, `sinkArgs`, `srcArg` and `srcOpsMap` of the pass
      (WiringTransform.cpp lines 59-64), plus the diagnostics emitted so far. */
  datatype Table = Table(
    sinkOps: map<string, seq<Op>>,
    sinkArgs: map<string, map<Op, seq<nat>>>,
    srcArg: map<string, nat>,
    srcOps: map<string, Op>,
    errors: seq<Diag>)

  const Empty: Table := Table(map[], map[], map[], map[], [])

  /** The sink list of route `n`; a missing entry reads as the empty list. */
  function SinksOf(t: Table, n: string): seq<Op>
  {
    if n in t.sinkOps then t.sinkOps[n] else []
  }

  /** The sink port numbers recorded for route `n` on module `o`. */
  function ArgsOf(t: Table, n: string, o: Op): seq<nat>
  {
    if n in t.sinkArgs && o in t.sinkArgs[n] then t.sinkArgs[n][o] else []
  }

  function Repeat<T>(x: T, k: nat): (r: seq<T>)
    ensures |r| == k
    ensures forall i :: 0 <= i < k ==> r[i] == x
  {
    if k == 0 then [] else Repeat(x, k - 1) + [x]
  }

  /** Number of AmbiguousSource diagnostics for route `n`. */
  function CountAmbiguous(ds: seq<Diag>, n: string): nat
  {
    if ds == [] then 0
    else
      var d := ds[|ds| - 1];
      CountAmbiguous(ds[..|ds| - 1], n) + (if d.kind == AmbiguousSource && d.name == n then 1 else 0)
  }

  // ---------------------------------------------------------------------
  // One annotation
  // ---------------------------------------------------------------------

  /** `sinkOpsMap[n].push_back(op)`. */
  function RecordSink(t: Table, n: string, op: Op): Table
  {
    t.(sinkOps := t.sinkOps[n := SinksOf(t, n) + [op]])
  }

  /** `sinkArgs[n][module].push_back(argNum)`. */
  function RecordSinkArg(t: Table, n: string, m: Op, argNum: nat): Table
  {
    var inner: map<Op, seq<nat>> := if n in t.sinkArgs then t.sinkArgs[n] else map[];
    t.(sinkArgs := t.sinkArgs[n := inner[m := ArgsOf(t, n, m) + [argNum]]])
  }

  /** `srcOpsMap.insert({n, op})`, with the error when the name was taken. */
  function RecordSource(t: Table, n: string, op: Op): Table
  {
    if n in t.srcOps then t.(errors := t.errors + [Diag(AmbiguousSource, n, op)])
    else t.(srcOps := t.srcOps[n := op])
  }

  /** The port callback on one annotation of port `argNum` of `module`. */
  function PortAnnoStep(t: Table, m: Op, argNum: nat, a: Anno): Table
  {
    match a
    case Sink(n) => RecordSinkArg(RecordSink(t, n, m), n, m, argNum)
    case Source(n) => RecordSource(t.(srcArg := t.srcArg[n := argNum]), n, m)
    case Other(_) => t
  }

  /** The operation callback on one annotation of `op`. */
  function OpAnnoStep(t: Table, op: Op, a: Anno): Table
  {
    match a
    case Sink(n) => RecordSink(t, n, op)
    case Source(n) => RecordSource(t, n, op)
    case Other(_) => t
  }

  // ---------------------------------------------------------------------
  // Whole lists, modules, operations and the walk
  // ---------------------------------------------------------------------

  /** The callback applied to every annotation of one port, in order. */
  function PortAnnos(t: Table, m: Op, argNum: nat, xs: seq<Anno>): Table
  {
    if xs == [] then t
    else PortAnnoStep(PortAnnos(t, m, argNum, xs[..|xs| - 1]), m, argNum, xs[|xs| - 1])
  }

  /** The callback applied to every port of a module, port 0 first; the
      port's index is its `argNum`. */
  function ModulePorts(t: Table, m: Op, ports: seq<seq<Anno>>): Table
  {
    if ports == [] then t
    else PortAnnos(ModulePorts(t, m, ports[..|ports| - 1]), m, |ports| - 1, ports[|ports| - 1])
  }

  /** The callback applied to every annotation of a non-module operation. */
  function OpAnnos(t: Table, op: Op, xs: seq<Anno>): Table
  {
    if xs == [] then t
    else OpAnnoStep(OpAnnos(t, op, xs[..|xs| - 1]), op, xs[|xs| - 1])
  }

  /** `gatherAnnotations(op)`: a module contributes its port annotations only;
      any other operation its own annotations. */
  function Gather(t: Table, v: OpState): Table
  {
    if v.isModule then ModulePorts(t, v.op, v.ports) else OpAnnos(t, v.op, v.annos)
  }

  /** The operation as `gatherAnnotations` leaves it. */
  function Gathered(v: OpState): OpState
  {
    if v.isModule then v.(ports := MapKept(v.ports)) else v.(annos := Kept(v.annos))
  }

  /** The annotations `gatherAnnotations` examines on an operation. */
  function Examined(v: OpState): seq<Anno>
  {
    if v.isModule then Flatten(v.ports) else v.annos
  }

  /** `gatherAnnotations` on every operation of a walk, in walk order. */
  function Walk(t: Table, vs: seq<OpState>): Table
  {
    if vs == [] then t else Gather(Walk(t, vs[..|vs| - 1]), vs[|vs| - 1])
  }

  function WalkOut(vs: seq<OpState>): (r: seq<OpState>)
    ensures |r| == |vs|
    ensures forall i :: 0 <= i < |vs| ==> r[i] == Gathered(vs[i])
  {
    if vs == [] then [] else WalkOut(vs[..|vs| - 1]) + [Gathered(vs[|vs| - 1])]
  }

  /** The diagnostics `transform` owes: one per source name without a sink
      list, reported at the source operation. */
  predicate OwedMissingSink(t: Table, d: Diag)
  {
    d.kind == MissingSink && d.name in t.srcOps && d.name !in t.sinkOps && d.op == t.srcOps[d.name]
  }

  /** The names of a diagnostic list. */
  function Names(ds: seq<Diag>): set<string>
  {
    set d | d in ds :: d.name
  }

  /** A diagnostic list without repeated names has one name per entry. */
  lemma {:induction false} DistinctNamesCount(ds: seq<Diag>)
    requires forall i, j :: 0 <= i < j < |ds| ==> ds[i].name != ds[j].name
    ensures |Names(ds)| == |ds|
  {
    if ds != [] {
      var init := ds[..|ds| - 1];
      DistinctNamesCount(init);
      assert ds == init + [ds[|ds| - 1]];
      assert ds[|ds| - 1].name !in Names(init);
      assert Names(ds) == Names(init) + {ds[|ds| - 1].name};
    }
  }

  /** A list holding exactly the owed diagnostics, one per name, has one
      entry per source name without a sink list. */
  lemma OwedCount(t: Table, ds: seq<Diag>)
    requires forall d :: d in ds <==> OwedMissingSink(t, d)
    requires forall i, j :: 0 <= i < j < |ds| ==> ds[i].name != ds[j].name
    ensures |ds| == |t.srcOps.Keys - t.sinkOps.Keys|
  {
    DistinctNamesCount(ds);
    forall n | n in t.srcOps.Keys - t.sinkOps.Keys
      ensures n in Names(ds)
    {
      assert OwedMissingSink(t, Diag(MissingSink, n, t.srcOps[n]));
    }
    assert Names(ds) == t.srcOps.Keys - t.sinkOps.Keys;
  }

  // ---------------------------------------------------------------------
  // Module ports agree with an operation's annotations on the shared fields
  // ---------------------------------------------------------------------

  /** The fields a module and a plain operation update alike. */
  function Strip(t: Table): Table
  {
    t.(sinkArgs := map[], srcArg := map[])
  }

  lemma {:induction false} OpAnnosConcat(t: Table, op: Op, xs: seq<Anno>, ys: seq<Anno>)
    ensures OpAnnos(t, op, xs + ys) == OpAnnos(OpAnnos(t, op, xs), op, ys)
  {
    if ys == [] {
      assert xs + ys == xs;
    } else {
      var init := ys[..|ys| - 1];
      assert (xs + ys)[..|xs + ys| - 1] == xs + init;
      assert (xs + ys)[|xs + ys| - 1] == ys[|ys| - 1];
      OpAnnosConcat(t, op, xs, init);
    }
  }

  /** Operation-level markers never touch `sinkArgs` or `srcArg`. */
  lemma {:induction false} OpAnnosFrame(t: Table, op: Op, xs: seq<Anno>)
    ensures OpAnnos(t, op, xs).sinkArgs == t.sinkArgs
    ensures OpAnnos(t, op, xs).srcArg == t.srcArg
    ensures Strip(OpAnnos(t, op, xs)) == OpAnnos(Strip(t), op, xs)
  {
    if xs != [] {
      OpAnnosFrame(t, op, xs[..|xs| - 1]);
    }
  }

  lemma {:induction false} PortAnnosStrip(t: Table, m: Op, argNum: nat, xs: seq<Anno>)
    ensures Strip(PortAnnos(t, m, argNum, xs)) == OpAnnos(Strip(t), m, xs)
  {
    if xs != [] {
      PortAnnosStrip(t, m, argNum, xs[..|xs| - 1]);
    }
  }

  /** On the sink lists, the source map and the diagnostics, the ports of a
      module act like one operation carrying all port annotations in order. */
  lemma {:induction false} ModulePortsStrip(t: Table, m: Op, ports: seq<seq<Anno>>)
    ensures Strip(ModulePorts(t, m, ports)) == OpAnnos(Strip(t), m, Flatten(ports))
  {
    if ports != [] {
      var init, p := ports[..|ports| - 1], ports[|ports| - 1];
      var mid := ModulePorts(t, m, init);
      ModulePortsStrip(t, m, init);
      PortAnnosStrip(mid, m, |ports| - 1, p);
      OpAnnosConcat(Strip(t), m, Flatten(init), p);
    }
  }

  lemma GatherStrip(t: Table, v: OpState)
    ensures Strip(Gather(t, v)) == OpAnnos(Strip(t), v.op, Examined(v))
  {
    if v.isModule {
      ModulePortsStrip(t, v.op, v.ports);
    } else {
      OpAnnosFrame(t, v.op, v.annos);
    }
  }

  // ---------------------------------------------------------------------
  // Sinks
  // ---------------------------------------------------------------------

  /** Each Sink annotation for `n` appends exactly one entry, the annotated
      operation, to the sink list of `n`. */
  lemma {:induction false} OpAnnosSinks(t: Table, op: Op, xs: seq<Anno>, n: string)
    ensures SinksOf(OpAnnos(t, op, xs), n) == SinksOf(t, n) + Repeat(op, CountSink(xs, n))
  {
    if xs != [] {
      var init := xs[..|xs| - 1];
      OpAnnosSinks(t, op, init, n);
      if xs[|xs| - 1] == Sink(n) {
        assert Repeat(op, CountSink(xs, n)) == Repeat(op, CountSink(init, n)) + [op];
      }
    }
  }

  /** A module is appended once per sink-annotated port annotation, so a
      module with several sink ports appears several times. */
  lemma ModulePortsSinks(t: Table, m: Op, ports: seq<seq<Anno>>, n: string)
    ensures SinksOf(ModulePorts(t, m, ports), n) == SinksOf(t, n) + Repeat(m, CountSink(Flatten(ports), n))
  {
    ModulePortsStrip(t, m, ports);
    OpAnnosSinks(Strip(t), m, Flatten(ports), n);
    assert SinksOf(Strip(ModulePorts(t, m, ports)), n) == SinksOf(ModulePorts(t, m, ports), n);
  }

  /** The sink entries a walk contributes for `n`, in walk order. */
  function WalkSinks(vs: seq<OpState>, n: string): seq<Op>
  {
    if vs == [] then []
    else
      var v := vs[|vs| - 1];
      WalkSinks(vs[..|vs| - 1], n) + Repeat(v.op, CountSink(Examined(v), n))
  }

  /** After a walk, the sink list of `n` is the old list followed by one entry
      per Sink annotation met, in traversal order. */
  lemma {:induction false} WalkSinkList(t: Table, vs: seq<OpState>, n: string)
    ensures SinksOf(Walk(t, vs), n) == SinksOf(t, n) + WalkSinks(vs, n)
  {
    if vs != [] {
      var init, v := vs[..|vs| - 1], vs[|vs| - 1];
      var mid := Walk(t, init);
      WalkSinkList(t, init, n);
      GatherStrip(mid, v);
      OpAnnosSinks(Strip(mid), v.op, Examined(v), n);
      assert SinksOf(Strip(Gather(mid, v)), n) == SinksOf(Gather(mid, v), n);
    }
  }

  /** The port numbers recorded for route `n` on module `o` when one port of
      `m` is visited: `argNum` once per Sink annotation, only under the
      module itself. */
  lemma {:induction false} PortAnnosArgs(t: Table, m: Op, argNum: nat, xs: seq<Anno>, n: string, o: Op)
    ensures ArgsOf(PortAnnos(t, m, argNum, xs), n, o)
         == ArgsOf(t, n, o) + (if o == m then Repeat(argNum, CountSink(xs, n)) else [])
  {
    if xs != [] {
      var init := xs[..|xs| - 1];
      PortAnnosArgs(t, m, argNum, init, n, o);
      if xs[|xs| - 1] == Sink(n) && o == m {
        assert Repeat(argNum, CountSink(xs, n)) == Repeat(argNum, CountSink(init, n)) + [argNum];
      }
    }
  }

  /** The port numbers of a module's sink ports for `n`: port `i` once per
      Sink annotation for `n` on it, in port order. */
  function SinkPortNumbers(ports: seq<seq<Anno>>, n: string): seq<nat>
  {
    if ports == [] then []
    else SinkPortNumbers(ports[..|ports| - 1], n) + Repeat(|ports| - 1, CountSink(ports[|ports| - 1], n))
  }

  lemma {:induction false} ModulePortsArgs(t: Table, m: Op, ports: seq<seq<Anno>>, n: string, o: Op)
    ensures ArgsOf(ModulePorts(t, m, ports), n, o)
         == ArgsOf(t, n, o) + (if o == m then SinkPortNumbers(ports, n) else [])
  {
    if ports != [] {
      var init := ports[..|ports| - 1];
      ModulePortsArgs(t, m, init, n, o);
      PortAnnosArgs(ModulePorts(t, m, init), m, |ports| - 1, ports[|ports| - 1], n, o);
    }
  }

  // ---------------------------------------------------------------------
  // Sources
  // ---------------------------------------------------------------------

  /** Errors only grow, and every new one is an AmbiguousSource reported at
      `op` for a route that has a Source annotation on it. */
  lemma {:induction false} OpAnnosErrors(t: Table, op: Op, xs: seq<Anno>)
    ensures t.errors <= OpAnnos(t, op, xs).errors
    ensures forall i :: |t.errors| <= i < |OpAnnos(t, op, xs).errors| ==>
      var d := OpAnnos(t, op, xs).errors[i];
      d.kind == AmbiguousSource && d.op == op && Source(d.name) in xs
  {
    if xs != [] {
      var init := xs[..|xs| - 1];
      OpAnnosErrors(t, op, init);
      assert forall a :: a in init ==> a in xs;
    }
  }

  lemma CountAmbiguousSnoc(ds: seq<Diag>, d: Diag, n: string)
    ensures CountAmbiguous(ds + [d], n)
         == CountAmbiguous(ds, n) + (if d.kind == AmbiguousSource && d.name == n then 1 else 0)
  {
    assert (ds + [d])[..|ds|] == ds;
  }

  /** One annotation: `insert` keeps an existing entry and reports the
      newcomer; it fills a missing entry silently. */
  lemma OpAnnoStepSources(t: Table, op: Op, a: Anno, n: string)
    ensures var r := OpAnnoStep(t, op, a);
      && (n in r.srcOps <==> n in t.srcOps || a == Source(n))
      && (n in t.srcOps ==> r.srcOps[n] == t.srcOps[n])
      && (n !in t.srcOps && a == Source(n) ==> r.srcOps[n] == op)
      && CountAmbiguous(r.errors, n)
           == CountAmbiguous(t.errors, n) + (if a == Source(n) && n in t.srcOps then 1 else 0)
  {
    match a
    case Source(m) =>
      if m in t.srcOps {
        CountAmbiguousSnoc(t.errors, Diag(AmbiguousSource, m, op), n);
      }
    case _ =>
  }

  /** First source wins: an existing entry is kept; otherwise the entry is
      this operation if it carries a Source for `n`. Every Source for `n`
      either makes the entry or is reported as ambiguous, exactly once. */
  lemma {:induction false} OpAnnosSources(t: Table, op: Op, xs: seq<Anno>, n: string)
    ensures var r := OpAnnos(t, op, xs);
      && (n in r.srcOps <==> n in t.srcOps || Source(n) in xs)
      && (n in t.srcOps ==> r.srcOps[n] == t.srcOps[n])
      && (n !in t.srcOps && Source(n) in xs ==> r.srcOps[n] == op)
      && CountAmbiguous(r.errors, n) + (if n in r.srcOps && n !in t.srcOps then 1 else 0)
           == CountAmbiguous(t.errors, n) + CountSource(xs, n)
  {
    CountSourcePositive(xs, n);
    if xs != [] {
      var init, a := xs[..|xs| - 1], xs[|xs| - 1];
      assert xs == init + [a];
      OpAnnosSources(t, op, init, n);
      CountSourcePositive(init, n);
      OpAnnoStepSources(OpAnnos(t, op, init), op, a, n);
    }
  }

  /** The source entries a walk produces: the first operation, in walk order,
      whose examined annotations hold a Source for `n`. */
  function FirstSource(vs: seq<OpState>, n: string): (r: Option<Op>)
    ensures r.Some? <==> exists i :: 0 <= i < |vs| && Source(n) in Examined(vs[i])
    ensures r.Some? ==>
      exists i :: 0 <= i < |vs| && Source(n) in Examined(vs[i]) && r.value == vs[i].op
        && forall j :: 0 <= j < i ==> Source(n) !in Examined(vs[j])
  {
    if vs == [] then None
    else
      var init, v := vs[..|vs| - 1], vs[|vs| - 1];
      var f := FirstSource(init, n);
      assert forall i :: 0 <= i < |init| ==> init[i] == vs[i];
      if f.Some? then f
      else if Source(n) in Examined(v) then Some(v.op)
      else None
  }

  /** Number of Source annotations for `n` met in a walk. */
  function WalkSourceCount(vs: seq<OpState>, n: string): nat
  {
    if vs == [] then 0 else WalkSourceCount(vs[..|vs| - 1], n) + CountSource(Examined(vs[|vs| - 1]), n)
  }

  /** Over a whole walk: the source of `n` is the one already recorded, or else
      the first source met; every other Source for `n` is reported once. */
  lemma {:induction false} WalkSources(t: Table, vs: seq<OpState>, n: string)
    ensures var r := Walk(t, vs);
      && (n in t.srcOps ==> n in r.srcOps && r.srcOps[n] == t.srcOps[n])
      && (n !in t.srcOps ==>
            (n in r.srcOps <==> FirstSource(vs, n).Some?)
            && (n in r.srcOps ==> r.srcOps[n] == FirstSource(vs, n).value))
      && CountAmbiguous(r.errors, n) + (if n in r.srcOps && n !in t.srcOps then 1 else 0)
           == CountAmbiguous(t.errors, n) + WalkSourceCount(vs, n)
  {
    if vs != [] {
      var init, v := vs[..|vs| - 1], vs[|vs| - 1];
      var mid := Walk(t, init);
      WalkSources(t, init, n);
      GatherStrip(mid, v);
      OpAnnosSources(Strip(mid), v.op, Examined(v), n);
      assert Strip(Gather(mid, v)).srcOps == Gather(mid, v).srcOps;
      assert Strip(Gather(mid, v)).errors == Gather(mid, v).errors;
    }
  }

  /** A port Source overwrites `srcArg[n]` with the port number, whether or
      not it is reported as ambiguous. */
  lemma {:induction false} PortAnnosSrcArg(t: Table, m: Op, argNum: nat, xs: seq<Anno>, n: string)
    ensures var r := PortAnnos(t, m, argNum, xs);
      && (n in r.srcArg <==> n in t.srcArg || Source(n) in xs)
      && (Source(n) in xs ==> r.srcArg[n] == argNum)
      && (Source(n) !in xs && n in t.srcArg ==> r.srcArg[n] == t.srcArg[n])
  {
    if xs != [] {
      var init := xs[..|xs| - 1];
      assert xs == init + [xs[|xs| - 1]];
      PortAnnosSrcArg(t, m, argNum, init, n);
    }
  }

  /** Because `srcArg` is written before the ambiguity test, a second source
      on another module leaves `srcOpsMap` naming the first module and
      `srcArg` naming the second module's port. */
  lemma AmbiguousSourceSplitsEntry(a: Op, b: Op, n: string)
    ensures var r := PortAnnos(PortAnnos(Empty, a, 0, [Source(n)]), b, 1, [Source(n)]);
      && r.srcOps[n] == a
      && r.srcArg[n] == 1
      && r.errors == [Diag(AmbiguousSource, n, b)]
  {
    assert [Source(n)][..0] == [];
  }

  /** The last port of a module that carries a Source for `n`. */
  function LastSourcePort(ports: seq<seq<Anno>>, n: string): (r: Option<nat>)
    ensures r.Some? ==>
      && r.value < |ports| && Source(n) in ports[r.value]
      && forall j :: r.value < j < |ports| ==> Source(n) !in ports[j]
    ensures r.None? ==> forall j :: 0 <= j < |ports| ==> Source(n) !in ports[j]
  {
    if ports == [] then None
    else if Source(n) in ports[|ports| - 1] then Some(|ports| - 1)
    else
      var r := LastSourcePort(ports[..|ports| - 1], n);
      assert forall j :: 0 <= j < |ports| - 1 ==> ports[..|ports| - 1][j] == ports[j];
      r
  }

  /** After a module's ports: `srcArg[n]` names the last Source port for `n`
      (the latest write wins), or is unchanged if there is none. */
  lemma {:induction false} ModulePortsSrcArg(t: Table, m: Op, ports: seq<seq<Anno>>, n: string)
    ensures var r := ModulePorts(t, m, ports);
      && (n in r.srcArg <==> n in t.srcArg || LastSourcePort(ports, n).Some?)
      && (LastSourcePort(ports, n).Some? ==> r.srcArg[n] == LastSourcePort(ports, n).value)
      && (LastSourcePort(ports, n).None? && n in t.srcArg ==> r.srcArg[n] == t.srcArg[n])
  {
    if ports != [] {
      var init := ports[..|ports| - 1];
      ModulePortsSrcArg(t, m, init, n);
      PortAnnosSrcArg(ModulePorts(t, m, init), m, |ports| - 1, ports[|ports| - 1], n);
      if Source(n) !in ports[|ports| - 1] {
        assert LastSourcePort(ports, n) == LastSourcePort(init, n);
      }
    }
  }

  // ---------------------------------------------------------------------
  // Consumption
  // ---------------------------------------------------------------------

  lemma {:induction false} OpAnnosIdle(t: Table, op: Op, xs: seq<Anno>)
    requires NoMarkers(xs)
    ensures OpAnnos(t, op, xs) == t
  {
    if xs != [] {
      OpAnnosIdle(t, op, xs[..|xs| - 1]);
    }
  }

  lemma {:induction false} PortAnnosIdle(t: Table, m: Op, argNum: nat, xs: seq<Anno>)
    requires NoMarkers(xs)
    ensures PortAnnos(t, m, argNum, xs) == t
  {
    if xs != [] {
      PortAnnosIdle(t, m, argNum, xs[..|xs| - 1]);
    }
  }

  lemma {:induction false} ModulePortsIdle(t: Table, m: Op, ports: seq<seq<Anno>>)
    requires forall i :: 0 <= i < |ports| ==> NoMarkers(ports[i])
    ensures ModulePorts(t, m, ports) == t
  {
    if ports != [] {
      ModulePortsIdle(t, m, ports[..|ports| - 1]);
      PortAnnosIdle(t, m, |ports| - 1, ports[|ports| - 1]);
    }
  }

  /** Gathering is consuming: visiting an operation as gathering left it
      changes no map and emits nothing, and leaves the operation as it is. */
  lemma GatherConsumes(t: Table, v: OpState)
    ensures Gather(t, Gathered(v)) == t
    ensures Gathered(Gathered(v)) == Gathered(v)
  {
    if v.isModule {
      ModulePortsIdle(t, v.op, MapKept(v.ports));
    } else {
      OpAnnosIdle(t, v.op, Kept(v.annos));
    }
  }

  /** A second walk over the output of a walk adds nothing to any map and
      emits no diagnostic, and changes no annotation. */
  lemma {:induction false} WalkConsumes(t: Table, vs: seq<OpState>)
    ensures Walk(t, WalkOut(vs)) == t
    ensures WalkOut(WalkOut(vs)) == WalkOut(vs)
  {
    if vs != [] {
      var init := vs[..|vs| - 1];
      WalkConsumes(t, init);
      assert WalkOut(vs)[..|vs| - 1] == WalkOut(init);
      GatherConsumes(t, vs[|vs| - 1]);
    }
  }
}
