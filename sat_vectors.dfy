/** The relative position vector between the observing site and the satellite,
    both given as Earth-fixed Cartesian coordinates in the same unit. */
module SatVectors {

  /** A Cartesian 3-vector (Earth-fixed position or displacement). */
  datatype Vec3 = Vec3(x: real, y: real, z: real)

  /** Component-wise sum, used to state what a displacement means. */
  function Add(a: Vec3, b: Vec3): Vec3 {
    Vec3(a.x + b.x, a.y + b.y, a.z + b.z)
  }

  /** The vector pointing from the site to the satellite: moving from the site
      position by the result lands exactly on the satellite position, and it is
      the only vector that does. */
  function SiteSatVec(satPos: Vec3, sitePos: Vec3): (d: Vec3)
    ensures Add(sitePos, d) == satPos
    ensures forall e :: Add(sitePos, e) == satPos ==> e == d
  {
    Vec3(satPos.x - sitePos.x, satPos.y - sitePos.y, satPos.z - sitePos.z)
  }
}
