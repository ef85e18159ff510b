/** The wiring pass object: its maps are fields that `gatherAnnotations`
    updates in place while it strips the consumed markers off the IR, and
    `transform` reports every source whose route has no sink. */
module WiringTransform {
  import opened Ir
  import opened RouteTable

  class WiringTransformPass {
    var sinkArgs: map<string, map<Op, seq<nat>>>
    var srcArg: map<string, nat>
    var sinkOpsMap: map<string, seq<Op>>
    var srcOpsMap: map<string, Op>
    /** The diagnostics emitted through `mlir::emitError`, in emission order. */
    var diagnostics: seq<Diag>

    /** The pass's bookkeeping as a value. */
    function Snapshot(): Table
      reads this
    {
      Table(sinkOpsMap, sinkArgs, srcArg, srcOpsMap, diagnostics)
    }

    constructor ()
      ensures Snapshot() == Empty
    {
      sinkArgs, srcArg, sinkOpsMap, srcOpsMap := map[], map[], map[], map[];
      diagnostics := [];
    }

    /** `sinkOpsMap[n].push_back(op)`. */
    method PushSink(n: string, op: Op)
      modifies this
      ensures Snapshot() == RecordSink(old(Snapshot()), n, op)
    {
      var list := if n in sinkOpsMap then sinkOpsMap[n] else [];
      sinkOpsMap := sinkOpsMap[n := list + [op]];
    }

    /** `srcOpsMap.insert({n, op})`, reporting an ambiguous source when the
        name is already taken. */
    method InsertSource(n: string, op: Op)
      modifies this
      ensures Snapshot() == RecordSource(old(Snapshot()), n, op)
    {
      var inserted := n !in srcOpsMap;
      if inserted {
        srcOpsMap := srcOpsMap[n := op];
      } else {
        diagnostics := diagnostics + [Diag(AmbiguousSource, n, op)];
      }
    }

    /** The callback handed to `removePortAnnotations`: records a marker on
        port `argNum` of `m` and answers whether to remove the annotation. */
    method PortAnnoCallback(m: Op, argNum: nat, anno: Anno) returns (remove: bool)
      modifies this
      ensures remove <==> IsMarker(anno)
      ensures Snapshot() == PortAnnoStep(old(Snapshot()), m, argNum, anno)
    {
      match anno
      case Sink(n) =>
        PushSink(n, m);
        var inner: map<Op, seq<nat>> := if n in sinkArgs then sinkArgs[n] else map[];
        var list := if m in inner then inner[m] else [];
        sinkArgs := sinkArgs[n := inner[m := list + [argNum]]];
        remove := true;
      case Source(n) =>
        srcArg := srcArg[n := argNum];
        InsertSource(n, m);
        remove := true;
      case Other(_) =>
        remove := false;
    }

    /** The callback handed to `removeAnnotations` for a non-module operation. */
    method OpAnnoCallback(op: Op, anno: Anno) returns (remove: bool)
      modifies this
      ensures remove <==> IsMarker(anno)
      ensures Snapshot() == OpAnnoStep(old(Snapshot()), op, anno)
    {
      match anno
      case Sink(n) =>
        PushSink(n, op);
        remove := true;
      case Source(n) =>
        InsertSource(n, op);
        remove := true;
      case Other(_) =>
        remove := false;
    }

    /** Runs the port callback over the annotations of one port and returns
        the annotations it keeps. */
    method RemoveFromPort(m: Op, argNum: nat, xs: seq<Anno>) returns (kept: seq<Anno>)
      modifies this
      ensures kept == Kept(xs)
      ensures Snapshot() == PortAnnos(old(Snapshot()), m, argNum, xs)
    {
      kept := [];
      var i := 0;
      while i < |xs|
        invariant 0 <= i <= |xs|
        invariant kept == Kept(xs[..i])
        invariant Snapshot() == PortAnnos(old(Snapshot()), m, argNum, xs[..i])
      {
        assert xs[..i + 1][..i] == xs[..i];
        var remove := PortAnnoCallback(m, argNum, xs[i]);
        if !remove {
          kept := kept + [xs[i]];
        }
        i := i + 1;
      }
      assert xs[..i] == xs;
    }

    /** Runs the operation callback over an annotation list and returns the
        annotations it keeps. */
    method RemoveFromOp(op: Op, xs: seq<Anno>) returns (kept: seq<Anno>)
      modifies this
      ensures kept == Kept(xs)
      ensures Snapshot() == OpAnnos(old(Snapshot()), op, xs)
    {
      kept := [];
      var i := 0;
      while i < |xs|
        invariant 0 <= i <= |xs|
        invariant kept == Kept(xs[..i])
        invariant Snapshot() == OpAnnos(old(Snapshot()), op, xs[..i])
      {
        assert xs[..i + 1][..i] == xs[..i];
        var remove := OpAnnoCallback(op, xs[i]);
        if !remove {
          kept := kept + [xs[i]];
        }
        i := i + 1;
      }
      assert xs[..i] == xs;
    }

    /** The module branch: every port, port 0 first, then the surviving port
        annotations are written back. The module's own annotations are not
        looked at. */
    method GatherModule(m: Op)
      requires m.isModule
      modifies this, m
      ensures Snapshot() == ModulePorts(old(Snapshot()), m, old(m.portAnnos))
      ensures m.portAnnos == MapKept(old(m.portAnnos))
      ensures m.annos == old(m.annos)
    {
      var ports := m.portAnnos;
      var newPorts := [];
      var argNum := 0;
      while argNum < |ports|
        invariant 0 <= argNum <= |ports|
        invariant m.annos == old(m.annos) && m.portAnnos == ports
        invariant newPorts == MapKept(ports[..argNum])
        invariant Snapshot() == ModulePorts(old(Snapshot()), m, ports[..argNum])
      {
        assert ports[..argNum + 1][..argNum] == ports[..argNum];
        var kept := RemoveFromPort(m, argNum, ports[argNum]);
        newPorts := newPorts + [kept];
        argNum := argNum + 1;
      }
      assert ports[..argNum] == ports;
      m.portAnnos := newPorts;
    }

    /** The operation branch: an operation without annotations is left alone;
        otherwise the surviving annotations are written back. */
    method GatherOp(op: Op)
      requires !op.isModule
      modifies this, op
      ensures Snapshot() == OpAnnos(old(Snapshot()), op, old(op.annos))
      ensures op.annos == Kept(old(op.annos))
      ensures op.portAnnos == old(op.portAnnos)
      ensures old(op.annos) == [] ==> unchanged(this, op)
    {
      if op.annos == [] {
        return;
      }
      var kept := RemoveFromOp(op, op.annos);
      op.annos := kept;
    }

    /** `gatherAnnotations(op)`. */
    method GatherAnnotations(op: Op)
      modifies this, op
      ensures Snapshot() == Gather(old(Snapshot()), old(op.State()))
      ensures op.State() == Gathered(old(op.State()))
    {
      if op.isModule {
        GatherModule(op);
      } else {
        GatherOp(op);
      }
    }

    /** The walk of `runOnOperation`: `gatherAnnotations` on every operation
        of the circuit, each visited once, in walk order. */
    method RunOnOperation(ops: seq<Op>)
      requires forall i, j :: 0 <= i < j < |ops| ==> ops[i] != ops[j]
      modifies this, ops
      ensures Snapshot() == Walk(old(Snapshot()), old(States(ops)))
      ensures States(ops) == WalkOut(old(States(ops)))
    {
      ghost var before := States(ops);
      var i := 0;
      while i < |ops|
        invariant 0 <= i <= |ops|
        invariant Snapshot() == Walk(old(Snapshot()), before[..i])
        invariant forall j :: 0 <= j < i ==> ops[j].State() == Gathered(before[j])
        invariant forall j :: i <= j < |ops| ==> ops[j].State() == before[j]
      {
        assert before[..i + 1][..i] == before[..i];
        label Visit:
        GatherAnnotations(ops[i]);
        forall j | 0 <= j < |ops| && j != i
          ensures ops[j].State() == old@Visit(ops[j].State())
        {
          assert ops[j] != ops[i];
        }
        i := i + 1;
      }
      assert before[..i] == before;
    }

    /** `transform`: one "cannot find corresponding sink" diagnostic per
        source name with no sink list, none for the others, and nothing for
        sink names without a source. The map's iteration order is not
        specified, so the new diagnostics are described as a set with one
        entry per name. */
    method Transform()
      modifies this`diagnostics
      ensures old(diagnostics) <= diagnostics
      ensures forall d :: d in diagnostics[|old(diagnostics)|..] <==> OwedMissingSink(Snapshot(), d)
      ensures forall i, j :: |old(diagnostics)| <= i < j < |diagnostics| ==> diagnostics[i].name != diagnostics[j].name
    {
      ghost var t := Snapshot();
      ghost var added: seq<Diag> := [];
      var todo := srcOpsMap.Keys;
      while todo != {}
        invariant todo <= srcOpsMap.Keys
        invariant diagnostics == old(diagnostics) + added
        invariant t.srcOps == srcOpsMap && t.sinkOps == sinkOpsMap
        invariant forall d :: d in added <==> OwedMissingSink(t, d) && d.name !in todo
        invariant forall i, j :: 0 <= i < j < |added| ==> added[i].name != added[j].name
        decreases todo
      {
        var n :| n in todo;
        if n !in sinkOpsMap {
          var d := Diag(MissingSink, n, srcOpsMap[n]);
          diagnostics := diagnostics + [d];
          added := added + [d];
        }
        todo := todo - {n};
      }
      assert diagnostics[|old(diagnostics)|..] == added;
      assert forall d :: OwedMissingSink(t, d) <==> OwedMissingSink(Snapshot(), d);
    }
  }
}
