/**
 * The numeric vocabulary of the map: points, 3x3 matrices, the Gaussian
 * belief of a point landmark and the geometry of a line feature.
 *
 * The floating-point routines the tree calls into (the Mahalanobis distance,
 * the multivariate normal drawer, and the line routines that the source
 * leaves undefined) are not modelled by their bodies: they are passed in as
 * the functions of a `Metric` or a `Sampler`.
 */
module Geometry {

  datatype Vec3 = Vec3(x: real, y: real, z: real)

  /** A 3x3 matrix as its three rows. */
  datatype Mat3 = Mat3(rows: seq<seq<real>>)

  /** The mean and covariance of a point landmark's position. */
  datatype Gaussian = Gaussian(mean: Vec3, cov: Mat3)

  /** The geometry of a line feature, as two points on it. */
  datatype Line = Line(from: Vec3, to: Vec3)

  /**
   * The scores the distance search asks of a leaf: `mahalanobis` stands for
   * the Gaussian's distance routine, `lineScore` for the (undefined) score of
   * a line feature of a given height.
   */
  datatype Metric = Metric(
    mahalanobis: (Gaussian, Vec3) -> real,
    lineScore: (Line, real, Vec3) -> real)

  /**
   * The random source behind a leaf's `draw()`: the k-th sample drawn in one
   * sampling call, for a Gaussian or a line feature of a given height.
   */
  datatype Sampler = Sampler(
    gaussian: (Gaussian, nat) -> Vec3,
    line: (Line, real, nat) -> Vec3)
}
