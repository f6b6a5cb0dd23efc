/** The owned configuration tree that the decoder builds (src/lib.rs). */
module Config {
  import opened Machine

  /** One configuration value: exactly one of seven variants. */
  datatype CfgData =
    | Int(i: Int64)
    | Bool(b: bool)
    | String(s: string)
    | Array(items: seq<Cfg>)
    | IpPort(port: Int32)
    | Float(bits: Float32Bits)
    | Object(items: seq<Cfg>)

  /** A named node: one key and one value. */
  datatype Cfg = Cfg(key: string, data: CfgData)

  /** The (empty) metadata record that the decoder's result lists. */
  datatype Meta = Meta

  /** c and all nodes below it use only the variants the decoder can build:
      Int, String, Array and Object. */
  ghost predicate OnlyDecodedVariants(c: Cfg)
    decreases c
  {
    match c.data
    case Int(_) => true
    case String(_) => true
    case Array(items) => forall k :: 0 <= k < |items| ==> OnlyDecodedVariants(items[k])
    case Object(items) => forall k :: 0 <= k < |items| ==> OnlyDecodedVariants(items[k])
    case _ => false
  }
}
