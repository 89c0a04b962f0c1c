/** `call_llm_flexible`: call the model object through the first call method it exposes,
    retrying after a failure, and coerce what it returns to text. The object's methods are
    oracles: `attempt(i)` is what the call of attempt `i` did, and `dumps` is `json.dumps`. */
module LlmCall {
  import opened Values

  /** The call methods tried, in order: `create`, `generate`, `call`, `run`, `__call__`. */
  datatype CallMethod = Create | Generate | CallNamed | Run | Invoke

  /** Which of them the object has (`hasattr`, and `callable` for the last). */
  datatype Handle = Handle(hasCreate: bool, hasGenerate: bool, hasCall: bool, hasRun: bool, isCallable: bool)

  /** What one call did: raised, or returned a value. */
  datatype Attempt = Threw | Gave(out: Value)

  /** The wrapper's outcome: the text returned, the last exception re-raised, or `None`
      when `range(max_retries + 1)` is empty. */
  datatype CallResult = Returned(v: Value) | Failed | NoAttempt

  /** The first method the object exposes. */
  function Chosen(h: Handle): (m: Option<CallMethod>)
    ensures m == Some(Create) <==> h.hasCreate
    ensures m == Some(Generate) <==> !h.hasCreate && h.hasGenerate
    ensures m == Some(CallNamed) <==> !h.hasCreate && !h.hasGenerate && h.hasCall
    ensures m == Some(Run) <==> !h.hasCreate && !h.hasGenerate && !h.hasCall && h.hasRun
    ensures m == Some(Invoke) <==> !h.hasCreate && !h.hasGenerate && !h.hasCall && !h.hasRun && h.isCallable
    ensures m == None <==> !h.hasCreate && !h.hasGenerate && !h.hasCall && !h.hasRun && !h.isCallable
  {
    if h.hasCreate then Some(Create)
    else if h.hasGenerate then Some(Generate)
    else if h.hasCall then Some(CallNamed)
    else if h.hasRun then Some(Run)
    else if h.isCallable then Some(Invoke)
    else None
  }

  /** The value returned for `out`. `create` and `generate` answers that are dictionaries
      with a `"text"` key give that entry (whatever its type); a string is returned as it
      is; anything else is serialised with `json.dumps`. */
  function Coerce(m: CallMethod, out: Value, dumps: Value -> string): (r: Value)
    ensures out.Str? ==> r == out
    ensures (m == Create || m == Generate) && out.Dict? && "text" in out.fields ==> r == out.fields["text"]
    ensures !out.Str? && !((m == Create || m == Generate) && out.Dict? && "text" in out.fields) ==>
              r == Str(dumps(out))
  {
    if (m == Create || m == Generate) && out.Dict? && "text" in out.fields then out.fields["text"]
    else if out.Str? then out
    else Str(dumps(out))
  }

  /** `call`, `run` and `__call__` always give a string; only `create` and `generate` can
      pass a non-string `"text"` entry through. */
  lemma CoerceGivesText(m: CallMethod, out: Value, dumps: Value -> string)
    ensures !Coerce(m, out, dumps).Str? ==>
              (m == Create || m == Generate) && out.Dict? && "text" in out.fields && !out.fields["text"].Str?
  {
  }

  /** Attempt `i` fails: the object has no call method (the `RuntimeError`), or the call raised. */
  predicate AttemptFails(h: Handle, attempt: nat -> Attempt, i: nat)
  {
    Chosen(h).None? || attempt(i).Threw?
  }

  /** The retry loop. `tries` is how many attempts were made. The wrapper returns the
      coerced answer of the first attempt that does not fail, makes at most
      `max_retries + 1` attempts, and re-raises when the last one fails. */
  method CallLlmFlexible(h: Handle, attempt: nat -> Attempt, maxRetries: int, dumps: Value -> string)
    returns (result: CallResult, tries: nat)
    ensures maxRetries < 0 <==> result == NoAttempt
    ensures maxRetries < 0 ==> tries == 0
    ensures maxRetries >= 0 ==> 1 <= tries <= maxRetries + 1
    ensures forall i :: 0 <= i < tries - 1 ==> AttemptFails(h, attempt, i)
    ensures result.Returned? ==>
              tries >= 1 && !AttemptFails(h, attempt, tries - 1)
              && result.v == Coerce(Chosen(h).value, attempt(tries - 1).out, dumps)
    ensures result.Failed? ==> tries >= 1 && tries == maxRetries + 1 && AttemptFails(h, attempt, tries - 1)
    ensures maxRetries >= 0 && Chosen(h).None? ==> result == Failed
    ensures maxRetries >= 0 && Chosen(h).Some? ==> result == FirstSuccess(h, attempt, maxRetries, dumps, 0)
  {
    tries := 0;
    var i := 0;
    while i <= maxRetries
      invariant 0 <= i && tries == i
      invariant maxRetries >= 0 ==> i <= maxRetries
      invariant maxRetries < 0 ==> i == 0
      invariant forall j :: 0 <= j < i ==> AttemptFails(h, attempt, j)
      invariant Chosen(h).Some? ==> FirstSuccess(h, attempt, maxRetries, dumps, 0) == FirstSuccess(h, attempt, maxRetries, dumps, i)
      decreases maxRetries + 1 - i
    {
      tries := tries + 1;
      var m := Chosen(h);
      if m.Some? && attempt(i).Gave? {
        return Returned(Coerce(m.value, attempt(i).out, dumps)), tries;
      }
      if i >= maxRetries {
        return Failed, tries;
      }
      i := i + 1;
    }
    return NoAttempt, tries;
  }

  /** The outcome the retry loop promises, as one value: the first attempt below
      `maxRetries + 1` that does not fail decides, and without one the call fails. */
  function FirstSuccess(h: Handle, attempt: nat -> Attempt, maxRetries: int, dumps: Value -> string, i: nat)
    : (r: CallResult)
    requires Chosen(h).Some?
    decreases maxRetries + 1 - i
  {
    if i > maxRetries then Failed
    else if attempt(i).Gave? then Returned(Coerce(Chosen(h).value, attempt(i).out, dumps))
    else FirstSuccess(h, attempt, maxRetries, dumps, i + 1)
  }

  /** `FirstSuccess` returns exactly when some attempt in range succeeds, and then with
      the first such attempt's coerced answer. */
  lemma {:induction false} FirstSuccessSpec(h: Handle, attempt: nat -> Attempt, maxRetries: int,
                                            dumps: Value -> string, i: nat)
    requires Chosen(h).Some?
    ensures var r := FirstSuccess(h, attempt, maxRetries, dumps, i);
            && (r.Returned? <==> exists j: nat :: i <= j <= maxRetries && attempt(j).Gave?)
            && (r.Returned? ==> exists j: nat :: && i <= j <= maxRetries && attempt(j).Gave?
                                                && (forall l :: i <= l < j ==> attempt(l).Threw?)
                                                && r.v == Coerce(Chosen(h).value, attempt(j).out, dumps))
    decreases maxRetries + 1 - i
  {
    if i <= maxRetries && !attempt(i).Gave? {
      FirstSuccessSpec(h, attempt, maxRetries, dumps, i + 1);
      var r := FirstSuccess(h, attempt, maxRetries, dumps, i);
      if r.Returned? {
        var j: nat :| && i + 1 <= j <= maxRetries && attempt(j).Gave?
                      && (forall l :: i + 1 <= l < j ==> attempt(l).Threw?)
                      && r.v == Coerce(Chosen(h).value, attempt(j).out, dumps);
        assert forall l :: i <= l < j ==> attempt(l).Threw?;
      }
    }
  }
}
