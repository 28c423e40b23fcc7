/** Optional values; None stands for JavaScript's `undefined` or `NaN` where the model says so. */
module Options {
  datatype Option<+T> = None | Some(value: T)
}
