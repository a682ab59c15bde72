/** Values shared by every part of the model: optional values, the errors the
    services throw, and the "first match" lookup of a document store. */
module Common {

  datatype Option<+T> = None | Some(value: T)
  {
    /** The value, or `default` when there is none. */
    function UnwrapOr(default: T): T {
      if Some? then value else default
    }
  }

  /** A thrown JavaScript error as the services see it: its message, its
      `statusCode` property (absent on plain `Error`s and on database errors)
      and its `isOperational` flag. */
  datatype Error = Error(message: string, statusCode: Option<int>, isOperational: bool)

  /** The outcome of an asynchronous service call: a value, or the error it throws. */
  datatype Result<+T> = Ok(value: T) | Err(error: Error)

  /** The status an `AppError` gets when the caller names none. */
  const DefaultAppErrorStatus: int := 400

  /** `new AppError(message, statusCode)`: an operational error. */
  function AppError(message: string, statusCode: int): (e: Error)
    ensures e.message == message && e.statusCode == Some(statusCode) && e.isOperational
  {
    Error(message, Some(statusCode), true)
  }

  /** `new Error(message)`: a plain, non-operational error without a status. */
  function PlainError(message: string): (e: Error)
    ensures e.message == message && e.statusCode == None && !e.isOperational
  {
    Error(message, None, false)
  }

  /** `n || fallback` on a number that may be missing (`undefined`, or NaN
      from `parseInt`): a missing or zero number falls back. */
  function NumberOr(n: Option<int>, fallback: int): (r: int)
    ensures n.Some? && n.value != 0 ==> r == n.value
    ensures n.None? || n.value == 0 ==> r == fallback
  {
    if n.Some? && n.value != 0 then n.value else fallback
  }

  /** JavaScript truthiness of an optional string: missing and "" are falsy. */
  predicate Truthy(s: Option<string>) {
    s.Some? && s.value != ""
  }

  /** `s || fallback` on an optional string. */
  function OrElse(s: Option<string>, fallback: string): (r: string)
    ensures Truthy(s) ==> r == s.value
    ensures !Truthy(s) ==> r == fallback
  {
    if Truthy(s) then s.value else fallback
  }

  /** The value an update leaves at an optional path: the supplied one, or
      the current one when the update does not supply the path. */
  function Supplied<T>(supplied: Option<T>, current: Option<T>): Option<T> {
    if supplied.Some? then supplied else current
  }

  /** The smallest key in [from, bound) of store `m` whose document satisfies
      `query`: the document a store's `findOne` returns when documents are kept
      in insertion order and keys are handed out in increasing order. */
  function FirstMatch<T>(m: map<nat, T>, query: (nat, T) -> bool, from: nat, bound: nat): (r: Option<nat>)
    decreases bound - from
    ensures r.Some? ==> r.value in m && from <= r.value < bound && query(r.value, m[r.value])
    ensures r.Some? ==> forall k | from <= k < r.value && k in m :: !query(k, m[k])
    ensures r.None? ==> forall k | from <= k < bound && k in m :: !query(k, m[k])
  {
    if from >= bound then None
    else if from in m && query(from, m[from]) then Some(from)
    else FirstMatch(m, query, from + 1, bound)
  }

  /** Every document in [from, bound) that satisfies `query`: what a
      store's `find` returns, walking the keys upwards. */
  function AllMatches<T>(m: map<nat, T>, query: (nat, T) -> bool, from: nat, bound: nat): (r: seq<T>)
    decreases bound - from
    ensures |r| <= if from < bound then bound - from else 0
    ensures forall x | x in r :: exists k | from <= k < bound && k in m :: m[k] == x && query(k, m[k])
    ensures forall k | from <= k < bound && k in m && query(k, m[k]) :: m[k] in r
  {
    if from >= bound then []
    else
      var rest := AllMatches(m, query, from + 1, bound);
      if from in m && query(from, m[from]) then [m[from]] + rest else rest
  }

  /** Once the first key greater than or equal to `from` matches, the whole
      search from `from` finds exactly that key. */
  lemma {:induction false} FirstMatchIsUnique<T>(m: map<nat, T>, query: (nat, T) -> bool, from: nat, bound: nat, k: nat)
    requires from <= k < bound && k in m && query(k, m[k])
    requires forall j | from <= j < k && j in m :: !query(j, m[j])
    ensures FirstMatch(m, query, from, bound) == Some(k)
    decreases k - from
  {
    if from < k {
      FirstMatchIsUnique(m, query, from + 1, bound, k);
    }
  }
}
