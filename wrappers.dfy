/** Optional values and results with an error, for Python's `None` and raised exceptions. */
module Wrappers {

  datatype Option<+T> = None | Some(value: T)

  datatype Result<+T, +E> = Success(value: T) | Failure(error: E)
}

/** Python values passed by keyword: only `None` and strings occur in the modelled calls. */
module Kwargs {

  datatype PyValue = PyNone | PyStr(s: string)

  /** `kwargs.get(name)`: the passed value, or `None` when the keyword was not passed. */
  function Get(kwargs: map<string, PyValue>, name: string): (v: PyValue)
    ensures name in kwargs ==> v == kwargs[name]
    ensures name !in kwargs ==> v == PyNone
  {
    if name in kwargs then kwargs[name] else PyNone
  }

  /** Python truthiness of a value: `None` and the empty string are false. */
  predicate Truthy(v: PyValue)
  {
    v.PyStr? && v.s != ""
  }
}
