/**
 * The process environment as a value: a finite map from variable names to
 * values. `Environment.GetEnvironmentVariable` yields null for a missing name,
 * and `Environment.SetEnvironmentVariable` with an empty value removes the name.
 */
module Env {
  import opened Wrappers

  type Environment = map<string, string>

  /** `Environment.GetEnvironmentVariable(name)`. */
  function GetVariable(env: Environment, name: string): Option<string> {
    if name in env then Some(env[name]) else None
  }

  /** `Environment.SetEnvironmentVariable(name, value)` for a non-null value. */
  function SetVariable(env: Environment, name: string, value: string): (r: Environment)
    ensures value == "" ==> GetVariable(r, name) == None
    ensures value != "" ==> GetVariable(r, name) == Some(value)
    ensures forall other :: other != name ==> GetVariable(r, other) == GetVariable(env, other)
  {
    if value == "" then env - {name} else env[name := value]
  }
}
