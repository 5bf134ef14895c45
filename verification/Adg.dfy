/** The architecture graph of the array: functional units (GPE and IOB) and the
    interconnect boxes (GIB) between them. */
module Adg {

  datatype Node =
    | Fu(isIob: bool,
         inputs: map<int, (int, int)>,      // in port -> (node, out port) driving it
         numOperands: nat,
         maxDelay: nat,                     // delay cycles shared by the operands
         operandInputs: seq<set<int>>)      // the in ports of each operand
    | Gib(inputs: map<int, (int, int)>,
          out2ins: map<int, set<int>>,      // the in ports an out port can select
          outReged: map<int, bool>)         // whether an out port is registered
  {
    function InsOf(outPort: int): set<int>
      requires Gib?
    {
      if outPort in out2ins then out2ins[outPort] else {}
    }

    predicate OutReged(outPort: int)
      requires Gib?
    {
      outPort in outReged && outReged[outPort]
    }
  }

  datatype Array = Array(nodes: map<int, Node>)

  // A node passed by a route, with the in and out port used; -1 where the route starts or ends.
  datatype Link = Link(srcPort: int, dstPort: int, node: int)
}
