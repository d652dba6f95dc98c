/** A configured route. */
module Config {
  datatype ServiceRoute = ServiceRoute(
    name: string, host: string, prefix: string,
    targetURL: string, targets: seq<string>,
    stripPrefix: bool, requireAuth: bool,
    weight: int, weights: seq<int>, timeoutSecs: int,
    healthPath: string, preserveHost: bool)
}
