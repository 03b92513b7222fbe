/** The per-frame observation list of helpers/obs.hpp. */
module Observations {
  import opened Json

  datatype Observation = Observation(
    hasTrk: bool, trk: int, cls: string, hasClsId: bool, clsId: int,
    conf: real, x: real, y: real, w: real, h: real, attrs: Json)

  datatype Frame = Frame(camId: string, tmCapture: int, obs: seq<Observation>)
}
