/** Optional values, as the database's nullable columns and the source's options. */
module Common {

  datatype Option<+T> = None | Some(value: T)

  function Coalesce<T>(a: Option<T>, b: Option<T>): Option<T> { if a.Some? then a else b }
}
