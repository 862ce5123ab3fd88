/** Nodes and links of the network the layout works on. */
module Graph {
  import opened Wrappers

  /** A node of the network. The simulation and the interaction code write its
      position fields in place. */
  class Node {
    const id: string
    var x: real
    var y: real
    /** Pinned position; None is the source's `null` (not pinned). */
    var fx: Option<real>
    var fy: Option<real>
    /** Position snapshot taken when the simulation is paused. */
    var savedX: Option<real>
    var savedY: Option<real>

    constructor (id: string, x: real, y: real)
      ensures this.id == id && this.x == x && this.y == y
      ensures fx == None && fy == None && savedX == None && savedY == None
    {
      this.id := id;
      this.x, this.y := x, y;
      fx, fy := None, None;
      savedX, savedY := None, None;
    }
  }

  /** A link; `source` and `target` are the ids of its end nodes. */
  datatype Link = Link(id: string, source: string, target: string)

  datatype Network = Network(nodes: seq<Node>, links: seq<Link>)
}
