/** The routing and geocoding provider, seen as an oracle. */
module Geo {
  import opened Wrappers

  /** The four coordinates of a directions request, start first. */
  datatype RouteRequest = RouteRequest(startLong: real, startLat: real, endLong: real, endLat: real)

  /** `geocode` maps a free-text query to `(longitude, latitude)`, in that order;
      `route` maps a request to walking minutes. Each either answers, raises
      `NotFound` (no feature / no duration in the reply) or raises `Other`. */
  datatype Provider = Provider(
    geocode: string -> Result<(real, real)>,
    route: RouteRequest -> Result<int>)
}
