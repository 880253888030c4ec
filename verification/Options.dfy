// The usual optional value. Here it is a nullable column value, or a KPI
// message that is published only under a condition.
module Options {
  datatype Option<+T> = None | Some(value: T)
}
