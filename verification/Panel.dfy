/** The panel's records, as far as the daemon looks into them. */
module Panel {

  /** Go's int64; user identifiers are printed, parsed and masked at this width. */
  type Int64 = x: int | -0x8000_0000_0000_0000 <= x < 0x8000_0000_0000_0000

  /** A listed user. The speed limit only feeds the rate limiter, which is not modelled. */
  datatype User = User(id: Int64, uuid: string, deviceLimit: int)

  datatype Route = Route(id: Int64, items: seq<string>, action: string, actionValue: string)

  /** A node configuration. `rest` stands for the fields no modelled code looks into. */
  datatype NodeConfig = NodeConfig(protocol: string, version: int, routes: seq<Route>, rest: string)
}
