/** The exceptions the core raises, how a call ends, and the process
    environment the credential lookups read. */
module Errors {
  import opened Wrappers

  /** The two exceptions that leave the core: the `ValueError` raised by a
      missing credential, and the error `json.loads` raises on a line that is
      not a JSON document. */
  datatype Error = ValueError(message: string) | JsonDecodeError

  /** How a call that returns nothing ends: it returns, or it raises. */
  datatype Completion = Returned | Raised(error: Error)

  /** The process environment, `os.environ`, as a map from variable names to
      values. */
  type Environment = map<string, string>

  /** `os.environ.get(name)`: the value when the variable is set, else `None`. */
  function EnvGet(env: Environment, name: string): (r: Option<string>)
    ensures r.Some? <==> name in env
    ensures r.Some? ==> r.value == env[name]
  {
    if name in env then Some(env[name]) else None
  }

  /** Python's truth test on the result of `os.environ.get`: `None` and the
      empty string are false. */
  predicate IsSetAndNonEmpty(v: Option<string>) {
    v.Some? && v.value != ""
  }
}
