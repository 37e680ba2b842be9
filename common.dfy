/** Values shared by the models of App.js and components/AdminPanel.js. */
module Common {

  /** A JavaScript value that is either a string or null/undefined. */
  datatype Option<T> = None | Some(value: T)

  /** JavaScript truthiness of a string-or-null: null and the empty string are falsy. */
  predicate Truthy(v: Option<string>)
  {
    v.Some? && v.value != ""
  }

  /** The expression `v || null`: a truthy string is kept, a falsy one becomes null. */
  function OrNull(v: Option<string>): (r: Option<string>)
    ensures r.Some? ==> r == v && r.value != ""
    ensures Truthy(v) ==> r == v
  {
    if Truthy(v) then v else None
  }
}
