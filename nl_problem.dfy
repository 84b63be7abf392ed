/** The problem records the reader fills and the graph consumes: points,
    nets given by their two terminals, and vias given by a column and a
    layer interval. Net numbers used inside the solver are positions in
    the net list (0-based); the id is the number written in the file. */
module NlProblem {

  datatype Option<T> = None | Some(value: T)

  datatype Point = Point(x: int, y: int, z: int)

  datatype NetDef = NetDef(id: nat, startPoint: Point, endPoint: Point)

  /** A via occupies column (x, y) on layers z1 through z2. */
  datatype ViaDef = ViaDef(name: string, x: int, y: int, z1: int, z2: int)

  datatype Problem = Problem(width: nat, height: nat, depth: nat, nets: seq<NetDef>, vias: seq<ViaDef>)

  const EmptyProblem := Problem(0, 0, 0, [], [])

  predicate InBox(w: int, h: int, d: int, p: Point) {
    0 <= p.x < w && 0 <= p.y < h && 0 <= p.z < d
  }

  /** Every terminal lies on the grid and every via column lies on the
      grid with a non-empty layer interval inside it. */
  predicate WellFormed(pr: Problem) {
    (forall k :: 0 <= k < |pr.nets| ==>
       InBox(pr.width, pr.height, pr.depth, pr.nets[k].startPoint) &&
       InBox(pr.width, pr.height, pr.depth, pr.nets[k].endPoint)) &&
    (forall v :: 0 <= v < |pr.vias| ==>
       0 <= pr.vias[v].x < pr.width && 0 <= pr.vias[v].y < pr.height &&
       0 <= pr.vias[v].z1 <= pr.vias[v].z2 < pr.depth)
  }
}
