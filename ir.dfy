/** The slice of the FIRRTL IR that the wiring pass looks at: operations that
    carry annotation lists, modules whose ports carry annotation lists, and the
    two annotation classes the pass consumes. */
module Ir {

  datatype Option<T> = None | Some(value: T)

  /** Class names of the two wiring markers (WiringTransform.cpp lines 36-39). */
  const SourceAnnoClass: string := "firrtl.passes.wiring.SourceAnnotation"
  const SinkAnnoClass: string := "firrtl.passes.wiring.SinkAnnotation"

  /** An annotation as the pass sees it: a wiring marker carrying its
      `portName` member (the route name), or anything else, kept by class. */
  datatype Anno = Source(name: string) | Sink(name: string) | Other(cls: string)

  /** The class string an annotation carries. */
  function ClassOf(a: Anno): string
  {
    match a
    case Source(_) => SourceAnnoClass
    case Sink(_) => SinkAnnoClass
    case Other(c) => c
  }

  /** Reads a raw annotation (its class and its `portName` member) the way the
      pass's `isClass` tests do: the Sink class first, then the Source class. */
  function Classify(cls: string, portName: string): (a: Anno)
    ensures a.Sink? <==> cls == SinkAnnoClass
    ensures a.Source? <==> cls == SourceAnnoClass
    ensures !a.Other? ==> a.name == portName
  {
    if cls == SinkAnnoClass then Sink(portName)
    else if cls == SourceAnnoClass then Source(portName)
    else Other(cls)
  }

  /** Classifying never loses the class string. */
  lemma ClassifyKeepsClass(cls: string, portName: string)
    ensures ClassOf(Classify(cls, portName)) == cls
  {
  }

  /** An annotation whose class is not a marker class is read back as itself. */
  lemma ClassifyRoundTrip(a: Anno, portName: string)
    requires a.Other? ==> a.cls != SinkAnnoClass && a.cls != SourceAnnoClass
    requires !a.Other? ==> portName == a.name
    ensures Classify(ClassOf(a), portName) == a
  {
  }

  predicate IsMarker(a: Anno)
  {
    a.Source? || a.Sink?
  }

  predicate NoMarkers(xs: seq<Anno>)
  {
    forall i :: 0 <= i < |xs| ==> !IsMarker(xs[i])
  }

  /** What is left of an annotation list once the pass's callback has removed
      every marker: the other annotations, in their original order. */
  function Kept(xs: seq<Anno>): (r: seq<Anno>)
    ensures NoMarkers(r)
    ensures forall a :: a in r <==> a in xs && !IsMarker(a)
    ensures |r| <= |xs|
    ensures NoMarkers(xs) ==> r == xs
  {
    if xs == [] then []
    else
      var init, a := xs[..|xs| - 1], xs[|xs| - 1];
      assert xs == init + [a];
      if IsMarker(a) then Kept(init) else Kept(init) + [a]
  }

  /** Removal works element by element, so it keeps the relative order of the
      surviving annotations. */
  lemma {:induction false} KeptConcat(xs: seq<Anno>, ys: seq<Anno>)
    ensures Kept(xs + ys) == Kept(xs) + Kept(ys)
  {
    if ys != [] {
      var init := ys[..|ys| - 1];
      assert (xs + ys)[..|xs + ys| - 1] == xs + init;
      assert (xs + ys)[|xs + ys| - 1] == ys[|ys| - 1];
      KeptConcat(xs, init);
    } else {
      assert xs + ys == xs;
    }
  }

  /** Number of Sink annotations for route `n`. */
  function CountSink(xs: seq<Anno>, n: string): nat
  {
    if xs == [] then 0
    else CountSink(xs[..|xs| - 1], n) + (if xs[|xs| - 1] == Sink(n) then 1 else 0)
  }

  /** Number of Source annotations for route `n`. */
  function CountSource(xs: seq<Anno>, n: string): nat
  {
    if xs == [] then 0
    else CountSource(xs[..|xs| - 1], n) + (if xs[|xs| - 1] == Source(n) then 1 else 0)
  }

  lemma {:induction false} CountSourcePositive(xs: seq<Anno>, n: string)
    ensures CountSource(xs, n) > 0 <==> Source(n) in xs
  {
    if xs != [] {
      var init := xs[..|xs| - 1];
      assert xs == init + [xs[|xs| - 1]];
      CountSourcePositive(init, n);
    }
  }

  /** The concatenation of all port annotation lists, port 0 first. */
  function Flatten(ports: seq<seq<Anno>>): seq<Anno>
  {
    if ports == [] then [] else Flatten(ports[..|ports| - 1]) + ports[|ports| - 1]
  }

  /** Every port's annotation list with its markers removed. */
  function MapKept(ports: seq<seq<Anno>>): (r: seq<seq<Anno>>)
    ensures |r| == |ports|
    ensures forall i :: 0 <= i < |ports| ==> r[i] == Kept(ports[i])
  {
    if ports == [] then [] else MapKept(ports[..|ports| - 1]) + [Kept(ports[|ports| - 1])]
  }

  /** A snapshot of one operation: its identity, whether it is a module, its
      own annotations and (for a module) the annotations of each port. */
  datatype OpState = OpState(op: Op, isModule: bool, annos: seq<Anno>, ports: seq<seq<Anno>>)

  /** An IR operation. Its annotations are attributes that the pass rewrites
      in place. `isModule` stands for `dyn_cast<FModuleOp>` succeeding. */
  class Op {
    const isModule: bool
    var annos: seq<Anno>
    var portAnnos: seq<seq<Anno>>

    constructor (isModule: bool, annos: seq<Anno>, portAnnos: seq<seq<Anno>>)
      requires isModule || portAnnos == []
      ensures this.isModule == isModule && this.annos == annos && this.portAnnos == portAnnos
    {
      this.isModule := isModule;
      this.annos := annos;
      this.portAnnos := portAnnos;
    }

    function State(): (s: OpState)
      reads this
      ensures s.op == this
    {
      OpState(this, isModule, annos, portAnnos)
    }
  }

  /** The snapshots of a sequence of operations, one per operation. */
  function States(ops: seq<Op>): (r: seq<OpState>)
    reads ops
    ensures |r| == |ops|
    ensures forall i :: 0 <= i < |ops| ==> r[i] == ops[i].State()
  {
    if ops == [] then [] else States(ops[..|ops| - 1]) + [ops[|ops| - 1].State()]
  }
}
