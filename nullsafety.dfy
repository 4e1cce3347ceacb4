/** The null-coalescing idioms: `?: throw`, `firstOrNull() ?: ""` and `?.let { } ?: default`. */
module NullSafety {
  import opened Wrappers

  /** `m[key]` on a Kotlin `Map`: `null` when the key is absent. */
  function Get<K, V>(m: map<K, V>, key: K): (r: Option<V>)
    ensures r.Some? <==> key in m
    ensures r.Some? ==> r.value == m[key]
  {
    if key in m then Some(m[key]) else None
  }

  /** `o ?: default`: the value when it is not null, the default otherwise. */
  function Elvis<T>(o: Option<T>, default: T): (r: T)
    ensures o.Some? ==> r == o.value
    ensures o.None? ==> r == default
  {
    match o
    case Some(v) => v
    case None => default
  }

  /** `o ?: throw e`: the value when it is not null, else `e` is thrown. */
  function ElvisThrow<T>(o: Option<T>, e: Exception): (r: Result<T>)
    ensures r.Ok? <==> o.Some?
    ensures r.Ok? ==> r.value == o.value
    ensures r.Thrown? ==> r.exception == e
  {
    match o
    case Some(v) => Ok(v)
    case None => Thrown(e)
  }

  /** The map the lookup reads. */
  const Values: map<string, int> := map["fax" := 1, "email" := 2, "letter" := 3]

  const EmailMissing: Exception := IllegalStateException("Email is missing!")

  /** `values["email"] ?: throw IllegalStateException("Email is missing!")`. */
  function Email(values: map<string, int>): (r: Result<int>)
    ensures r.Ok? <==> "email" in values
    ensures forall v :: r == Ok(v) <==> "email" in values && values["email"] == v
    ensures r.Thrown? ==> r.exception == EmailMissing
  {
    ElvisThrow(Get(values, "email"), EmailMissing)
  }

  /** In the map of the script the lookup yields 2. */
  lemma EmailOfValues()
    ensures Email(Values) == Ok(2)
  {
  }

  /** An absent key never yields a value: the lookup throws instead. */
  lemma EmailAbsentThrows(values: map<string, int>)
    requires "email" !in values
    ensures Email(values) == Thrown(EmailMissing)
  {
  }

  /** Keys other than "email" have no say in the outcome. */
  lemma EmailIgnoresOtherKeys(values: map<string, int>, key: string, v: int)
    requires key != "email"
    ensures Email(values[key := v]) == Email(values)
  {
  }

  /** `list.firstOrNull()`. */
  function FirstOrNull<T>(xs: seq<T>): (r: Option<T>)
    ensures r.Some? <==> |xs| > 0
    ensures r.Some? ==> r.value == xs[0]
  {
    if |xs| == 0 then None else Some(xs[0])
  }

  /** `emails.firstOrNull() ?: ""`: never throws, the first address or the empty string. */
  function MainEmail(emails: seq<string>): (r: string)
    ensures |emails| > 0 ==> r == emails[0]
    ensures |emails| == 0 ==> r == ""
  {
    Elvis(FirstOrNull(emails), "")
  }

  /** For the list of the script the main address is its first one. */
  lemma MainEmailOfEmails()
    ensures MainEmail(["from@me", "to@home", "you@where"]) == "from@me"
  {
  }

  /** `o?.let { f(it) }`: `f` is applied to a non-null value and its result, which may
      itself be null, is the result; a null receiver gives null. */
  function Let<T, U>(o: Option<T>, f: T -> Option<U>): (r: Option<U>)
    ensures o.None? ==> r.None?
    ensures o.Some? ==> r == f(o.value)
  {
    match o
    case Some(v) => f(v)
    case None => None
  }

  /** `o?.let { f(it) } ?: default` falls back to the default exactly when the receiver
      or the transform result is null, as the comment after `mapped` says. */
  lemma LetElvisDefault<T, U>(o: Option<T>, f: T -> Option<U>, default: U)
    ensures Elvis(Let(o, f), default) ==
              if o.None? || f(o.value).None? then default else f(o.value).value
  {
  }

  /** `transformValue(i)`: ignores its argument and returns 1. */
  function TransformValue(i: int): (r: int)
    ensures r == 1
  {
    1
  }

  /** `value?.let { transformValue(it) } ?: defaultValue`. */
  function Mapped(value: Option<int>, defaultValue: int): (r: int)
    ensures value.Some? ==> r == TransformValue(value.value) && r == 1
    ensures value.None? ==> r == defaultValue
  {
    Elvis(Let(value, i => Some(TransformValue(i))), defaultValue)
  }

  /** On the null path the transform is never consulted: any two transforms give the same
      outcome, so `?: default` returns the default whatever `f` is. */
  lemma LetNullIgnoresTransform<T, U>(f: T -> Option<U>, g: T -> Option<U>, default: U)
    ensures Let(None, f) == Let(None, g) == None
    ensures Elvis(Let(None, f), default) == default
  {
  }

  /** In the script `value` is 99 and `defaultValue` is 0, so `mapped` is 1. */
  lemma MappedOfScript()
    ensures Mapped(Some(99), 0) == 1
  {
  }
}
