/** The records the pipeline passes around: an interest point (`Ipoint`,
    surf_src/surf.h) and a nearest-neighbour correspondence (`distPoint`,
    src/cvutils.h).  Floating-point fields are modelled as reals. */
module Features {

  /** Number of components of a SURF-64 descriptor (DESC_SIZE). */
  const DESC_SIZE: nat := 64

  type Descriptor = d: seq<real> | |d| == DESC_SIZE witness seq(64, _ => 0.0)

  datatype Ipoint = Ipoint(
    x: real,
    y: real,
    scale: real,
    orientation: real,
    laplacian: int,
    clusterIndex: int,
    descriptor: Descriptor)

  /** One correspondence: point1 indexes the new frame's points, point2 the
      reference frame's points. */
  datatype DistPoint = DistPoint(
    point1: int,
    x1: real,
    y1: real,
    point2: int,
    x2: real,
    y2: real,
    dist: real,
    orientationDiff: real,
    scaleDiff: real,
    isMatch: int,
    dup: bool)
}
