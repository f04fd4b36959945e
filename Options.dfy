/** An optional value: what a parse yields, and whether telemetry ran. */
module Options {

  datatype Option<T> = None | Some(value: T)
}
