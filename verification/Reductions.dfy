/** Rewrites of the front end that break an operation on many inputs into a tree of binary
    ones, pairing up the elements of a list that grows while it is walked. */
module Reductions {
  import opened Dfg
  import opened Layout

  // A node of the control-data-flow graph; operands are nodes created before. A condition holds
  // when its value is not zero.
  datatype Op =
    | Input(id: int)
    | Const(val: int)
    | Mul(a: nat, b: nat)
    | Add(a: nat, b: nat)
    | Select(onTrue: nat, onFalse: nat, cond: nat)
    | CtrlOr(a: nat, b: nat)
  {
    predicate OperandsBelow(n: nat) {
      match this
      case Input(_) => true
      case Const(_) => true
      case Select(t, f, c) => t < n && f < n && c < n
      case Mul(x, y) => x < n && y < n
      case Add(x, y) => x < n && y < n
      case CtrlOr(x, y) => x < n && y < n
    }
  }

  ghost predicate Built(nodes: seq<Op>) {
    forall i | 0 <= i < |nodes| :: nodes[i].OperandsBelow(i)
  }

  // The value of a node, given those of the inputs.
  function Eval(nodes: seq<Op>, env: int -> int, i: nat): int
    requires Built(nodes) && i < |nodes|
    decreases i
  {
    match nodes[i]
    case Input(id) => env(id)
    case Const(val) => val
    case Mul(a, b) => Eval(nodes, env, a) * Eval(nodes, env, b)
    case Add(a, b) => Eval(nodes, env, a) + Eval(nodes, env, b)
    case Select(t, f, c) => if Eval(nodes, env, c) != 0 then Eval(nodes, env, t) else Eval(nodes, env, f)
    case CtrlOr(a, b) => if Eval(nodes, env, a) != 0 || Eval(nodes, env, b) != 0 then 1 else 0
  }

  // New nodes do not change the values of old ones.
  lemma {:induction false} EvalStays(nodes: seq<Op>, more: seq<Op>, env: int -> int, i: nat)
    requires Built(nodes) && Built(more) && |nodes| <= |more| && more[..|nodes|] == nodes && i < |nodes|
    ensures Eval(more, env, i) == Eval(nodes, env, i)
    decreases i
  {
    assert more[i] == nodes[i];
    match nodes[i]
    case Input(_) =>
    case Const(_) =>
    case Select(t, f, c) =>
      EvalStays(nodes, more, env, t);
      EvalStays(nodes, more, env, f);
      EvalStays(nodes, more, env, c);
    case Mul(a, b) =>
      EvalStays(nodes, more, env, a);
      EvalStays(nodes, more, env, b);
    case Add(a, b) =>
      EvalStays(nodes, more, env, a);
      EvalStays(nodes, more, env, b);
    case CtrlOr(a, b) =>
      EvalStays(nodes, more, env, a);
      EvalStays(nodes, more, env, b);
  }

  ghost predicate AreNodes(nodes: seq<Op>, s: seq<nat>) {
    forall i | 0 <= i < |s| :: s[i] < |nodes|
  }

  ghost predicate Grew(nodes: seq<Op>, more: seq<Op>) {
    Built(more) && |nodes| <= |more| && more[..|nodes|] == nodes
  }

  // ----- address computation

  // An index of an address computation: given, or the value of a node.
  datatype Operand = Given(val: int) | Variable(node: nat)

  // A node that is multiplied with the size of what it counts.
  datatype Scaled = Scaled(node: nat, elemSize: int)

  ghost function Flat(nodes: seq<Op>, env: int -> int, idx: seq<Scaled>): int
    requires Built(nodes) && Indices(nodes, idx)
  {
    if idx == [] then 0
    else Flat(nodes, env, idx[..|idx| - 1]) + Eval(nodes, env, idx[|idx| - 1].node) * idx[|idx| - 1].elemSize
  }

  ghost predicate Indices(nodes: seq<Op>, idx: seq<Scaled>) {
    forall i | 0 <= i < |idx| :: idx[i].node < |nodes|
  }

  ghost predicate Operands(nodes: seq<Op>, ops: seq<Operand>) {
    forall i | 0 <= i < |ops| && ops[i].Variable? :: ops[i].node < |nodes|
  }

  predicate AllGiven(ops: seq<Operand>) { forall i | 0 <= i < |ops| :: ops[i].Given? }

  ghost function ValueOf(nodes: seq<Op>, env: int -> int, op: Operand): int
    requires Built(nodes) && (op.Variable? ==> op.node < |nodes|)
  {
    if op.Given? then op.val else Eval(nodes, env, op.node)
  }

  // An operand can lead into the type: into an array, or to a given field of a struct.
  predicate CanEnter(t: Type, op: Operand) {
    t.Arr? || (t.Struct? && op.Given? && 0 <= op.val < |t.fields|)
  }

  function Entered(t: Type, op: Operand): Type
    requires CanEnter(t, op)
  {
    if t.Arr? then t.elem else t.fields[op.val]
  }

  predicate LeadsInto(t: Type, ops: seq<Operand>) {
    ops == [] || (CanEnter(t, ops[0]) && LeadsInto(Entered(t, ops[0]), ops[1..]))
  }

  // How far into the type the operands lead.
  ghost function Within(nodes: seq<Op>, env: int -> int, t: Type, ops: seq<Operand>): int
    requires Built(nodes) && Operands(nodes, ops) && LeadsInto(t, ops)
  {
    if ops == [] then 0
    else
      (if t.Arr? then ValueOf(nodes, env, ops[0]) * AllocSize(t.elem) else FieldAt(t, ops[0].val))
      + Within(nodes, env, Entered(t, ops[0]), ops[1..])
  }

  // The address: the first operand counts elements of the type, the others lead into one.
  ghost function Address(nodes: seq<Op>, env: int -> int, t: Type, ops: seq<Operand>): int
    requires Built(nodes) && Operands(nodes, ops) && (ops == [] || LeadsInto(t, ops[1..]))
  {
    if ops == [] then 0 else ValueOf(nodes, env, ops[0]) * AllocSize(t) + Within(nodes, env, t, ops[1..])
  }

  // The gaps between fields that the front end does not count.
  ghost function Skipped(t: Type, ops: seq<Operand>): int
    requires LeadsInto(t, ops)
  {
    if ops == [] then 0
    else
      (if t.Arr? then 0 else FieldAt(t, ops[0].val) - SumBefore(t, ops[0].val)) + Skipped(Entered(t, ops[0]), ops[1..])
  }

  ghost function SkippedIn(t: Type, ops: seq<Operand>): int
    requires ops == [] || LeadsInto(t, ops[1..])
  {
    if ops == [] then 0 else Skipped(t, ops[1..])
  }

  // No struct on the way has a gap before the field that is taken.
  predicate PackedAlong(t: Type, ops: seq<Operand>)
    requires LeadsInto(t, ops)
  {
    ops == [] || ((t.Arr? || Packed(t, ops[0].val)) && PackedAlong(Entered(t, ops[0]), ops[1..]))
  }

  lemma {:induction false} SkipsGaps(t: Type, ops: seq<Operand>)
    requires LeadsInto(t, ops)
    ensures Skipped(t, ops) >= 0
    ensures Skipped(t, ops) == 0 <==> PackedAlong(t, ops)
    decreases |ops|
  {
    if ops != [] {
      if t.Struct? {
        FieldOffsetRight(t, ops[0].val);
      }
      SkipsGaps(Entered(t, ops[0]), ops[1..]);
    }
  }

  // The values of the operands.
  ghost function Values(nodes: seq<Op>, env: int -> int, ops: seq<Operand>): seq<int>
    requires Built(nodes) && Operands(nodes, ops)
  {
    seq(|ops|, i requires 0 <= i < |ops| => ValueOf(nodes, env, ops[i]))
  }

  lemma {:induction false} WithinIsOffset(nodes: seq<Op>, env: int -> int, t: Type, ops: seq<Operand>)
    requires Built(nodes) && Operands(nodes, ops) && LeadsInto(t, ops) && IsPath(t, Values(nodes, env, ops))
    ensures Within(nodes, env, t, ops) == OffsetOf(t, Values(nodes, env, ops))
    decreases |ops|
  {
    if ops != [] {
      var elem := Entered(t, ops[0]);
      assert Values(nodes, env, ops)[1..] == Values(nodes, env, ops[1..]);
      assert elem == Part(t, Values(nodes, env, ops)[0]);
      WithinIsOffset(nodes, env, elem, ops[1..]);
    }
  }

  // Operands in range lead to different bytes, unless one leads into what the other leads to.
  lemma AddressesApart(nodes: seq<Op>, env: int -> int, t: Type, ops: seq<Operand>, others: seq<Operand>)
    requires Built(nodes) && Operands(nodes, ops) && Operands(nodes, others) && LeadsInto(t, ops) && LeadsInto(t, others)
    requires var p, q := Values(nodes, env, ops), Values(nodes, env, others);
      IsPath(t, p) && IsPath(t, q) && !IsPrefix(p, q) && !IsPrefix(q, p)
    ensures var p, q := Values(nodes, env, ops), Values(nodes, env, others);
      var a, b := Within(nodes, env, t, ops), Within(nodes, env, t, others);
      && 0 <= a <= a + AllocSize(TypeAt(t, p)) <= AllocSize(t) && 0 <= b <= b + AllocSize(TypeAt(t, q)) <= AllocSize(t)
      && (a + AllocSize(TypeAt(t, p)) <= b || b + AllocSize(TypeAt(t, q)) <= a)
  {
    var p, q := Values(nodes, env, ops), Values(nodes, env, others);
    WithinIsOffset(nodes, env, t, ops);
    WithinIsOffset(nodes, env, t, others);
    PathInside(t, p);
    PathInside(t, q);
    PathsApart(t, p, q);
  }

  // The first operands have come to curr; vars and offset stand for them, but for the gaps.
  ghost predicate Folded(nodes: seq<Op>, t: Type, ops: seq<Operand>, vars: seq<Scaled>, offset: int, curr: Type, rest: seq<Operand>) {
    Built(nodes) && Operands(nodes, ops) && Operands(nodes, rest) && Indices(nodes, vars)
    && ops != [] && (LeadsInto(t, ops[1..]) <==> LeadsInto(curr, rest))
    && (LeadsInto(curr, rest) ==> forall env ::
         Flat(nodes, env, vars) + offset + Within(nodes, env, curr, rest) - Skipped(curr, rest)
         == Address(nodes, env, t, ops) - Skipped(t, ops[1..]))
  }

  // One more operand op, that counts things of the given size: a variable one is listed, a given
  // one added to the offset.
  function VarsWith(vars: seq<Scaled>, op: Operand, size: int): seq<Scaled> {
    if op.Variable? then vars + [Scaled(op.node, size)] else vars
  }

  function OffsetWith(offset: int, op: Operand, size: int): int {
    if op.Variable? then offset else offset + op.val * size
  }

  lemma CountedOnce(nodes: seq<Op>, env: int -> int, vars: seq<Scaled>, offset: int, op: Operand, size: int)
    requires Built(nodes) && Indices(nodes, vars) && (op.Variable? ==> op.node < |nodes|)
    ensures Indices(nodes, VarsWith(vars, op, size))
    ensures Flat(nodes, env, VarsWith(vars, op, size)) + OffsetWith(offset, op, size)
      == Flat(nodes, env, vars) + offset + ValueOf(nodes, env, op) * size
  {
    if op.Variable? {
      assert (vars + [Scaled(op.node, size)])[..|vars|] == vars;
    }
  }

  lemma FoldedFirst(nodes: seq<Op>, t: Type, ops: seq<Operand>)
    requires Built(nodes) && Operands(nodes, ops) && ops != []
    ensures Folded(nodes, t, ops, VarsWith([], ops[0], AllocSize(t)), OffsetWith(0, ops[0], AllocSize(t)), t, ops[1..])
  {
    forall env
      ensures Flat(nodes, env, VarsWith([], ops[0], AllocSize(t))) + OffsetWith(0, ops[0], AllocSize(t))
        == ValueOf(nodes, env, ops[0]) * AllocSize(t)
      ensures Indices(nodes, VarsWith([], ops[0], AllocSize(t)))
    {
      CountedOnce(nodes, env, [], 0, ops[0], AllocSize(t));
    }
    var env: int -> int := x => 0;
    CountedOnce(nodes, env, [], 0, ops[0], AllocSize(t));
  }

  // What one operand adds to the address: a multiple of a size, or the start of a field.
  lemma WithinStep(nodes: seq<Op>, env: int -> int, curr: Type, rest: seq<Operand>)
    requires Built(nodes) && Operands(nodes, rest) && LeadsInto(curr, rest) && rest != []
    ensures
      var elem, op := Entered(curr, rest[0]), rest[0];
      Within(nodes, env, curr, rest) - Skipped(curr, rest)
      == ValueOf(nodes, env, op) * StepSize(curr, op) + StepOffset(curr, op)
        + Within(nodes, env, elem, rest[1..]) - Skipped(elem, rest[1..])
  {}

  function StepSize(curr: Type, op: Operand): int
    requires CanEnter(curr, op)
  {
    if curr.Arr? then AllocSize(curr.elem) else 0
  }

  function StepOffset(curr: Type, op: Operand): int
    requires CanEnter(curr, op)
  {
    if curr.Arr? then 0 else SumBefore(curr, op.val)
  }

  lemma FoldedNext(nodes: seq<Op>, t: Type, ops: seq<Operand>, vars: seq<Scaled>, offset: int, curr: Type, rest: seq<Operand>)
    requires Folded(nodes, t, ops, vars, offset, curr, rest) && rest != [] && CanEnter(curr, rest[0])
    ensures
      var op, size := rest[0], StepSize(curr, rest[0]);
      Folded(nodes, t, ops, VarsWith(vars, op, size), OffsetWith(offset + StepOffset(curr, op), op, size), Entered(curr, op), rest[1..])
  {
    var op, size, at, elem := rest[0], StepSize(curr, rest[0]), StepOffset(curr, rest[0]), Entered(curr, rest[0]);
    assert Indices(nodes, VarsWith(vars, op, size)) by {
      CountedOnce(nodes, (x: int) => 0, vars, offset + at, op, size);
    }
    if LeadsInto(elem, rest[1..]) {
      forall env
        ensures Flat(nodes, env, VarsWith(vars, op, size)) + OffsetWith(offset + at, op, size)
          + Within(nodes, env, elem, rest[1..]) - Skipped(elem, rest[1..])
          == Address(nodes, env, t, ops) - Skipped(t, ops[1..])
      {
        CountedOnce(nodes, env, vars, offset + at, op, size);
        WithinStep(nodes, env, curr, rest);
      }
    }
  }

  lemma FoldedLast(nodes: seq<Op>, t: Type, ops: seq<Operand>, vars: seq<Scaled>, offset: int, curr: Type)
    requires Built(nodes) && Operands(nodes, ops)
    requires if ops == [] then vars == [] && offset == 0 else Folded(nodes, t, ops, vars, offset, curr, [])
    ensures (ops == [] || LeadsInto(t, ops[1..])) && Indices(nodes, vars)
    ensures forall env :: Flat(nodes, env, vars) + offset == Address(nodes, env, t, ops) - SkippedIn(t, ops)
  {}

  ghost function Total(nodes: seq<Op>, env: int -> int, s: seq<nat>): int
    requires Built(nodes) && AreNodes(nodes, s)
  {
    if s == [] then 0 else Eval(nodes, env, s[0]) + Total(nodes, env, s[1..])
  }

  lemma {:induction false} TotalStays(nodes: seq<Op>, more: seq<Op>, env: int -> int, s: seq<nat>)
    requires Built(nodes) && Grew(nodes, more) && AreNodes(nodes, s)
    ensures AreNodes(more, s) && Total(more, env, s) == Total(nodes, env, s)
  {
    if s != [] {
      EvalStays(nodes, more, env, s[0]);
      TotalStays(nodes, more, env, s[1..]);
    }
  }

  lemma {:induction false} TotalMore(nodes: seq<Op>, env: int -> int, s: seq<nat>, n: nat)
    requires Built(nodes) && AreNodes(nodes, s) && n < |nodes|
    ensures Total(nodes, env, s + [n]) == Total(nodes, env, s) + Eval(nodes, env, n)
  {
    if s == [] {
      assert s + [n] == [n] && [n][1..] == [];
    } else {
      assert (s + [n])[1..] == s[1..] + [n];
      TotalMore(nodes, env, s[1..], n);
    }
  }

  lemma {:induction false} FlatStays(nodes: seq<Op>, more: seq<Op>, env: int -> int, idx: seq<Scaled>)
    requires Built(nodes) && Grew(nodes, more) && Indices(nodes, idx)
    ensures Indices(more, idx) && Flat(more, env, idx) == Flat(nodes, env, idx)
  {
    if idx != [] {
      FlatStays(nodes, more, env, idx[..|idx| - 1]);
      EvalStays(nodes, more, env, idx[|idx| - 1].node);
    }
  }

  // ----- selection by control flow

  // An incoming value of a PHI node, and the condition under which control comes from there.
  datatype Parent = Parent(data: nat, cond: nat)

  ghost predicate AreParents(nodes: seq<Op>, ps: seq<Parent>) {
    forall i | 0 <= i < |ps| :: ps[i].data < |nodes| && ps[i].cond < |nodes|
  }

  ghost function Holds(nodes: seq<Op>, env: int -> int, p: Parent): int
    requires Built(nodes) && p.cond < |nodes|
  {
    if Eval(nodes, env, p.cond) != 0 then 1 else 0
  }

  // How many of the conditions hold.
  ghost function Count(nodes: seq<Op>, env: int -> int, ps: seq<Parent>): nat
    requires Built(nodes) && AreParents(nodes, ps)
  {
    if ps == [] then 0 else Holds(nodes, env, ps[0]) + Count(nodes, env, ps[1..])
  }

  // The value whose condition holds, the first if there are more.
  ghost function Chosen(nodes: seq<Op>, env: int -> int, ps: seq<Parent>): int
    requires Built(nodes) && AreParents(nodes, ps)
  {
    if ps == [] then 0
    else if Eval(nodes, env, ps[0].cond) != 0 then Eval(nodes, env, ps[0].data)
    else Chosen(nodes, env, ps[1..])
  }

  lemma {:induction false} ParentsStay(nodes: seq<Op>, more: seq<Op>, env: int -> int, ps: seq<Parent>)
    requires Built(nodes) && Grew(nodes, more) && AreParents(nodes, ps)
    ensures AreParents(more, ps) && Count(more, env, ps) == Count(nodes, env, ps) && Chosen(more, env, ps) == Chosen(nodes, env, ps)
  {
    if ps != [] {
      EvalStays(nodes, more, env, ps[0].cond);
      EvalStays(nodes, more, env, ps[0].data);
      ParentsStay(nodes, more, env, ps[1..]);
    }
  }

  lemma {:induction false} ParentsMore(nodes: seq<Op>, env: int -> int, ps: seq<Parent>, p: Parent)
    requires Built(nodes) && AreParents(nodes, ps) && p.data < |nodes| && p.cond < |nodes|
    ensures Count(nodes, env, ps + [p]) == Count(nodes, env, ps) + Holds(nodes, env, p)
    ensures Chosen(nodes, env, ps + [p]) ==
      if Count(nodes, env, ps) > 0 then Chosen(nodes, env, ps)
      else if Eval(nodes, env, p.cond) != 0 then Eval(nodes, env, p.data) else 0
  {
    if ps == [] {
      assert ps + [p] == [p] && [p][1..] == [];
    } else {
      assert (ps + [p])[1..] == ps[1..] + [p];
      ParentsMore(nodes, env, ps[1..], p);
    }
  }

  // The rest of the list still stands for value v: it is a single node of that value, or the
  // one condition that holds belongs to it.
  ghost predicate StandsFor(nodes: seq<Op>, env: int -> int, rest: seq<Parent>, v: int)
    requires Built(nodes) && AreParents(nodes, rest)
  {
    && rest != []
    && if |rest| == 1 then Eval(nodes, env, rest[0].data) == v
       else Count(nodes, env, rest) == 1 && Chosen(nodes, env, rest) == v
  }

  lemma PairSelected(nodes: seq<Op>, more: seq<Op>, env: int -> int, rest: seq<Parent>, p: Parent, v: int)
    requires Built(nodes) && Grew(nodes, more) && AreParents(nodes, rest) && |rest| >= 2 && StandsFor(nodes, env, rest, v)
    requires p.data < |more| && p.cond < |more| && more[p.data] == Select(rest[0].data, rest[1].data, rest[0].cond)
    requires |rest| > 2 ==> more[p.cond] == CtrlOr(rest[0].cond, rest[1].cond)
    ensures AreParents(more, rest[2..] + [p]) && StandsFor(more, env, rest[2..] + [p], v)
  {
    EvalStays(nodes, more, env, rest[0].data);
    EvalStays(nodes, more, env, rest[1].data);
    EvalStays(nodes, more, env, rest[0].cond);
    EvalStays(nodes, more, env, rest[1].cond);
    var tail := rest[2..];
    assert rest[1..][1..] == tail && rest[1..][0] == rest[1];
    assert Count(nodes, env, rest) == Holds(nodes, env, rest[0]) + Holds(nodes, env, rest[1]) + Count(nodes, env, tail);
    assert Chosen(nodes, env, rest) ==
      if Eval(nodes, env, rest[0].cond) != 0 then Eval(nodes, env, rest[0].data)
      else if Eval(nodes, env, rest[1].cond) != 0 then Eval(nodes, env, rest[1].data)
      else Chosen(nodes, env, tail);
    ParentsStay(nodes, more, env, tail);
    ParentsMore(more, env, tail, p);
    NoneHolds(nodes, env, tail);
    assert |rest| == 2 ==> tail == [] && tail + [p] == [p];
    assert Eval(more, env, p.data) ==
      if Eval(nodes, env, rest[0].cond) != 0 then Eval(nodes, env, rest[0].data) else Eval(nodes, env, rest[1].data);
  }

  lemma {:induction false} NoneHolds(nodes: seq<Op>, env: int -> int, ps: seq<Parent>)
    requires Built(nodes) && AreParents(nodes, ps)
    ensures Count(nodes, env, ps) == 0 ==> Chosen(nodes, env, ps) == 0
  {
    if ps != [] {
      NoneHolds(nodes, env, ps[1..]);
    }
  }

  // ----- alternatives of control flow

  ghost function AnyHolds(nodes: seq<Op>, env: int -> int, s: seq<nat>): bool
    requires Built(nodes) && AreNodes(nodes, s)
  {
    exists i :: 0 <= i < |s| && Eval(nodes, env, s[i]) != 0
  }

  lemma AnyStays(nodes: seq<Op>, more: seq<Op>, env: int -> int, s: seq<nat>)
    requires Built(nodes) && Grew(nodes, more) && AreNodes(nodes, s)
    ensures AreNodes(more, s) && AnyHolds(more, env, s) == AnyHolds(nodes, env, s)
  {
    forall i | 0 <= i < |s|
      ensures Eval(more, env, s[i]) == Eval(nodes, env, s[i])
    {
      EvalStays(nodes, more, env, s[i]);
    }
  }

  ghost predicate IsAlternative(more: seq<Op>, root: nat, nodes: seq<Op>, s: seq<nat>)
    requires Built(nodes) && Built(more) && AreNodes(nodes, s) && root < |more|
  {
    forall env :: Eval(more, env, root) != 0 <==> AnyHolds(nodes, env, s)
  }

  // Two conditions taken from the front and their alternative put at the end.
  lemma AnyPaired(nodes: seq<Op>, more: seq<Op>, env: int -> int, q: seq<nat>, n: nat)
    requires Built(nodes) && Grew(nodes, more) && AreNodes(nodes, q) && |q| >= 2
    requires n < |more| && more[n] == CtrlOr(q[0], q[1])
    ensures AreNodes(more, q[2..] + [n]) && AnyHolds(more, env, q[2..] + [n]) == AnyHolds(nodes, env, q)
  {
    var q' := q[2..] + [n];
    AnyStays(nodes, more, env, q);
    if i :| 0 <= i < |q| && Eval(more, env, q[i]) != 0 {
      var j := if i < 2 then |q'| - 1 else i - 2;
      assert Eval(more, env, q'[j]) != 0;
    }
    if j :| 0 <= j < |q'| && Eval(more, env, q'[j]) != 0 {
      if j < |q'| - 1 {
        assert q'[j] == q[j + 2];
      } else {
        assert Eval(more, env, q[0]) != 0 || Eval(more, env, q[1]) != 0;
      }
    }
  }

  class Cdfg {
    var nodes: seq<Op>

    constructor ()
      ensures nodes == []
    {
      nodes := [];
    }

    method AddNode(op: Op) returns (n: nat)
      requires Built(nodes) && op.OperandsBelow(|nodes|)
      modifies this
      ensures n == |old(nodes)| && nodes == old(nodes) + [op] && Built(nodes) && Grew(old(nodes), nodes)
    {
      n := |nodes|;
      nodes := nodes + [op];
    }

    // Adds up what is given, and lists the variable operands with the sizes of what they count.
    // Fails where the operands cannot lead into the type.
    method FoldOperands(t: Type, ops: seq<Operand>) returns (ok: bool, vars: seq<Scaled>, offset: int)
      requires Built(nodes) && Operands(nodes, ops)
      ensures ok <==> ops == [] || LeadsInto(t, ops[1..])
      ensures ok ==> Indices(nodes, vars) && (vars == [] <==> AllGiven(ops))
      ensures ok ==> forall env :: Flat(nodes, env, vars) + offset == Address(nodes, env, t, ops) - SkippedIn(t, ops)
    {
      vars, offset, ok := [], 0, true;
      var curr := t;
      var i := 0;
      while i < |ops|
        invariant 0 <= i <= |ops|
        invariant i == 0 ==> curr == t && vars == [] && offset == 0
        invariant i > 0 ==> Folded(nodes, t, ops, vars, offset, curr, ops[i..])
        invariant vars == [] <==> forall j | 0 <= j < i :: ops[j].Given?
      {
        assert ops[i..][1..] == ops[i + 1..];
        var size := AllocSize(curr);
        if i == 0 {
          FoldedFirst(nodes, t, ops);
        } else {
          ok := CanEnter(curr, ops[i]);
          if !ok {
            return;
          }
          FoldedNext(nodes, t, ops, vars, offset, curr, ops[i..]);
          curr, size, offset := Enter(curr, ops[i], offset);
        }
        vars, offset := TakeIn(ops[i], size, vars, offset);
        i := i + 1;
      }
      FoldedLast(nodes, t, ops, vars, offset, curr);
    }

    // Moves on to the element or field that the operand takes.
    method Enter(curr: Type, op: Operand, offset: int) returns (elem: Type, size: int, offset': int)
      requires CanEnter(curr, op)
      ensures elem == Entered(curr, op)
      ensures size == StepSize(curr, op) && offset' == offset + StepOffset(curr, op)
    {
      elem, size, offset' := Entered(curr, op), 0, offset;
      if curr.Struct? {
        var at := ElemOffset(curr, op.val);
        offset' := offset + at;
      } else {
        size := AllocSize(elem);
      }
    }

    method TakeIn(op: Operand, size: int, vars: seq<Scaled>, offset: int) returns (vars': seq<Scaled>, offset': int)
      ensures vars' == VarsWith(vars, op, size) && offset' == OffsetWith(offset, op, size)
    {
      vars', offset' := vars, offset;
      if op.Variable? {
        vars' := vars + [Scaled(op.node, size)];
      } else {
        offset' := offset + op.val * size;
      }
    }

    // A product for each variable operand.
    method CreateProducts(vars: seq<Scaled>) returns (newNodes: seq<nat>)
      requires Built(nodes) && Indices(nodes, vars)
      modifies this
      ensures Grew(old(nodes), nodes) && AreNodes(nodes, newNodes) && |newNodes| == |vars|
      ensures forall env :: Total(nodes, env, newNodes) == Flat(old(nodes), env, vars)
    {
      newNodes := [];
      for i := 0 to |vars|
        invariant Grew(old(nodes), nodes) && AreNodes(nodes, newNodes) && |newNodes| == i
        invariant forall env :: Total(nodes, env, newNodes) == Flat(old(nodes), env, vars[..i])
      {
        ghost var before, sum0 := nodes, newNodes;
        var constNode := AddNode(Const(vars[i].elemSize));
        var mulNode := AddNode(Mul(vars[i].node, constNode));
        newNodes := newNodes + [mulNode];
        assert vars[..i + 1][..i] == vars[..i];
        forall env
          ensures Total(nodes, env, newNodes) == Flat(old(nodes), env, vars[..i + 1])
        {
          TotalStays(before, nodes, env, sum0);
          TotalMore(nodes, env, sum0, mulNode);
          EvalStays(old(nodes), nodes, env, vars[i].node);
        }
      }
      assert vars[..|vars|] == vars;
    }

    // Adds up the nodes two by two; a sum goes to the end of the list and is added in turn.
    method AddPairs(newNodes0: seq<nat>) returns (newNodes: seq<nat>)
      requires Built(nodes) && AreNodes(nodes, newNodes0)
      modifies this
      ensures Grew(old(nodes), nodes) && AreNodes(nodes, newNodes)
      ensures newNodes == [] <==> newNodes0 == []
      ensures newNodes != [] ==> forall env :: Eval(nodes, env, newNodes[|newNodes| - 1]) == Total(old(nodes), env, newNodes0)
    {
      newNodes := newNodes0;
      var i := 0;
      assert newNodes[0..] == newNodes0;
      while i + 1 < |newNodes|
        invariant 0 <= i && (newNodes0 == [] ==> newNodes == []) && (newNodes0 != [] ==> i < |newNodes|)
        invariant Grew(old(nodes), nodes) && AreNodes(nodes, newNodes)
        invariant newNodes0 != [] ==> forall env :: Total(nodes, env, newNodes[i..]) == Total(old(nodes), env, newNodes0)
        decreases |newNodes| - i
      {
        ghost var before, rest := nodes, newNodes[i + 2..];
        var newNode := AddNode(Add(newNodes[i], newNodes[i + 1]));
        forall env
          ensures Total(nodes, env, rest + [newNode]) == Total(before, env, newNodes[i..])
        {
          assert newNodes[i..] == [newNodes[i], newNodes[i + 1]] + rest;
          assert newNodes[i..][1..][1..] == rest;
          TotalStays(before, nodes, env, rest);
          TotalMore(nodes, env, rest, newNode);
          EvalStays(before, nodes, env, newNodes[i]);
          EvalStays(before, nodes, env, newNodes[i + 1]);
        }
        newNodes := newNodes + [newNode];
        i := i + 2;
        assert newNodes[i..] == rest + [newNode];
      }
      if newNodes != [] {
        assert newNodes[i..] == [newNodes[i]];
        assert newNodes[i..][1..] == [];
      }
    }

    // The address computation as a tree: the value at the root and the offset make the address
    // that the operands lead to, but for the gaps that are skipped. Without a variable operand
    // there is no tree. Fails just when the operands cannot lead into the type.
    method HandleGep(t: Type, ops: seq<Operand>) returns (ok: bool, root: seq<nat>, offset: int)
      requires Built(nodes) && Operands(nodes, ops)
      modifies this
      ensures ok <==> ops == [] || LeadsInto(t, ops[1..])
      ensures Grew(old(nodes), nodes) && |root| <= 1 && AreNodes(nodes, root)
      ensures ok ==> (root == [] <==> AllGiven(ops))
      ensures ok ==> forall env :: TreeValue(env, root) + offset == Address(old(nodes), env, t, ops) - SkippedIn(t, ops)
    {
      var vars, newNodes;
      ok, vars, offset := FoldOperands(t, ops);
      root := [];
      if !ok {
        return;
      }
      newNodes := CreateProducts(vars);
      ghost var before, products := nodes, newNodes;
      newNodes := AddPairs(newNodes);
      root := if newNodes == [] then [] else [newNodes[|newNodes| - 1]];
      assert products == [] ==> forall env :: Total(before, env, products) == 0;
    }

    ghost function TreeValue(env: int -> int, root: seq<nat>): int
      requires Built(nodes) && AreNodes(nodes, root)
      reads this
    {
      if root == [] then 0 else Eval(nodes, env, root[0])
    }

    // A PHI node as a chain of selections: when control comes from one parent, the value at
    // the end of the chain is that parent's.
    method HandlePhi(phiParents0: seq<Parent>) returns (lastNode: nat)
      requires Built(nodes) && AreParents(nodes, phiParents0) && phiParents0 != []
      modifies this
      ensures Grew(old(nodes), nodes) && lastNode < |nodes|
      ensures forall env | Count(old(nodes), env, phiParents0) == 1 ::
        Eval(nodes, env, lastNode) == Chosen(old(nodes), env, phiParents0)
    {
      var phiParents := phiParents0;
      var i := 0;
      assert phiParents[0..] == phiParents0;
      StartChain(nodes, phiParents0);
      while i + 1 < |phiParents|
        invariant 0 <= i < |phiParents|
        invariant Grew(old(nodes), nodes) && AreParents(nodes, phiParents)
        invariant forall env | Count(old(nodes), env, phiParents0) == 1 ::
          StandsFor(nodes, env, phiParents[i..], Chosen(old(nodes), env, phiParents0))
        decreases |phiParents| - i
      {
        ghost var before, rest := nodes, phiParents[i..];
        var pp1, pp2 := phiParents[i], phiParents[i + 1];
        var selNode := AddNode(Select(pp1.data, pp2.data, pp1.cond));
        var p := Parent(selNode, 0);    // the last one needs no condition
        if i + 2 != |phiParents| {
          var newCondNode := AddNode(CtrlOr(pp1.cond, pp2.cond));
          p := Parent(selNode, newCondNode);
        }
        phiParents := phiParents + [p];
        i := i + 2;
        assert phiParents[i..] == rest[2..] + [p];
        forall env | Count(old(nodes), env, phiParents0) == 1
          ensures StandsFor(nodes, env, phiParents[i..], Chosen(old(nodes), env, phiParents0))
        {
          PairSelected(before, nodes, env, rest, p, Chosen(old(nodes), env, phiParents0));
        }
      }
      lastNode := phiParents[|phiParents| - 1].data;
      assert phiParents[i..] == [phiParents[i]];
    }

    static lemma StartChain(nodes: seq<Op>, ps: seq<Parent>)
      requires Built(nodes) && AreParents(nodes, ps) && ps != []
      ensures forall env | Count(nodes, env, ps) == 1 :: StandsFor(nodes, env, ps, Chosen(nodes, env, ps))
    {}

    // The conditional inputs of a node as a tree of alternatives. The node is left with one
    // conditional input, which holds just when one of the old ones does; a single one is kept.
    method CreateCtrlOrTree(condParents: seq<nat>) returns (inputs: set<nat>)
      requires Built(nodes) && AreNodes(nodes, condParents) && Distinct(condParents) && condParents != []
      modifies this
      ensures Grew(old(nodes), nodes)
      ensures exists root :: inputs == {root} && root < |nodes| && IsAlternative(nodes, root, old(nodes), condParents)
    {
      inputs := set p | p in condParents;
      ghost var root := condParents[0];
      if |condParents| > 1 {
        var q := condParents;
        while q != []
          invariant Grew(old(nodes), nodes) && AreNodes(nodes, q) && Distinct(q)
          invariant q != [] ==> forall p :: p in inputs <==> p in q
          invariant q != [] ==> forall env :: AnyHolds(nodes, env, q) == AnyHolds(old(nodes), env, condParents)
          invariant q == [] ==> inputs == {root} && root < |nodes| && IsAlternative(nodes, root, old(nodes), condParents)
          decreases |q|
        {
          ghost var before, all := nodes, q;
          var pp1 := q[0];
          q := q[1..];
          if q != [] {
            var pp2 := q[0];
            q := q[1..];
            var orNode := AddNode(CtrlOr(pp1, pp2));
            inputs := inputs - {pp1, pp2} + {orNode};
            q := q + [orNode];
            assert q == all[2..] + [orNode] && all == [pp1, pp2] + all[2..];
            forall env
              ensures AnyHolds(nodes, env, q) == AnyHolds(before, env, all)
            {
              AnyPaired(before, nodes, env, all, orNode);
            }
          } else {
            root := pp1;
            OneLeft(all, inputs);
            AloneIsAlternative(nodes, all, old(nodes), condParents);
          }
        }
      } else {
        OneLeft(condParents, inputs);
        AloneIsAlternative(nodes, condParents, nodes, condParents);
      }
    }

    static lemma AloneIsAlternative(more: seq<Op>, q: seq<nat>, nodes: seq<Op>, s: seq<nat>)
      requires Built(nodes) && Built(more) && AreNodes(nodes, s) && AreNodes(more, q) && |q| == 1
      requires forall env :: AnyHolds(more, env, q) == AnyHolds(nodes, env, s)
      ensures IsAlternative(more, q[0], nodes, s)
    {}

    static lemma OneLeft(q: seq<nat>, inputs: set<nat>)
      requires |q| == 1 && forall p :: p in inputs <==> p in q
      ensures inputs == {q[0]}
    {}
  }

  lemma WordIsMissed()
    ensures LeadsInto(BYTE_AND_WORD, [Given(0), Given(1)][1..])
    ensures SkippedIn(BYTE_AND_WORD, [Given(0), Given(1)]) == 3
    ensures forall env: int -> int :: Address([], env, BYTE_AND_WORD, [Given(0), Given(1)]) == 4
  {
    var ops := [Given(0), Given(1)];
    ByteThenWord();
    assert ops[1..] == [Given(1)] && ops[1..][1..] == [];
    assert Skipped(Type.Scalar(4, 4), []) == 0;
  }

  // Field 1 of a byte and a word, that lies at 4: the address computed is 1.
  method GapIsMissed() returns (root: seq<nat>, offset: int)
    ensures root == [] && offset == 1
    ensures forall env: int -> int :: Address([], env, BYTE_AND_WORD, [Given(0), Given(1)]) == 4
  {
    var g := new Cdfg();
    var ok;
    var ops := [Given(0), Given(1)];
    ByteThenWord();
    WordIsMissed();
    ok, root, offset := g.HandleGep(BYTE_AND_WORD, ops);
    ghost var env: int -> int := x => 0;
    assert g.TreeValue(env, root) == 0;
  }
}
