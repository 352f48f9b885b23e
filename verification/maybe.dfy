/** A value that may be missing: the source's `null`, `undefined` or absent
    dictionary key. */
module Maybe {

  datatype Option<T> = None | Some(value: T)

  /** Python's `d.get(k, d)`: the present value, or the fallback `d` when
      the key is missing. */
  function GetOr<T>(o: Option<T>, d: T): (r: T)
    ensures o.Some? ==> r == o.value
    ensures o.None? ==> r == d
  {
    if o.Some? then o.value else d
  }
}
