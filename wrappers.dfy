/** Optional values, for lookups that may find nothing and for the
    optional invalid voucher code a discount calculation reports. */
module Wrappers {

  datatype Option<+T> = None | Some(value: T)
}
