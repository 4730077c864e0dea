/** Optional values, standing in for the nullable pointers of `rgw::UsageMetrics`. */
module Wrappers {
  datatype Option<+T> = None | Some(value: T)
}
