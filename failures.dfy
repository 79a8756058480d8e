/** Error values and the Option/Result wrappers shared by every module.
    Go functions that return `(T, error)` become functions returning `Result<T>`;
    functions that return only an `error` return `Option<Error>` (None is nil). */
module Failures {

  datatype Option<+T> = None | Some(value: T)

  /** An error as the source builds it. */
  datatype Error =
    | Msg(text: string)                    // fmt.Errorf with no wrapped error
    | Wrapped(prefix: string, cause: Error) // fmt.Errorf("<prefix>%s", cause)
    | Foreign(what: string)                 // an error returned by a collaborator outside the model
  {
    /** What `err.Error()` prints. */
    function Text(): string {
      match this
      case Msg(t) => t
      case Wrapped(p, c) => p + c.Text()
      case Foreign(w) => w
    }
  }

  datatype Result<+T> = Ok(value: T) | Err(error: Error) {
    predicate IsFailure() { Err? }

    function PropagateFailure<U>(): Result<U>
      requires Err?
    {
      Err(error)
    }

    function Extract(): T
      requires Ok?
    {
      value
    }
  }

  /** Steps taken one after the other, stopping at the first failure: all their values in
      order, or the first error. */
  function Collect<T>(rs: seq<Result<T>>): Result<seq<T>>
  {
    if rs == [] then Ok([])
    else
      match Collect(rs[..|rs| - 1])
      case Err(e) => Err(e)
      case Ok(done) =>
        match rs[|rs| - 1]
        case Err(e) => Err(e)
        case Ok(v) => Ok(done + [v])
  }

  /** `Collect` succeeds iff every step does, and then keeps each value at its position;
      otherwise its error is that of the first failing step. */
  lemma {:induction false} CollectMeaning<T>(rs: seq<Result<T>>)
    ensures Collect(rs).Ok? <==> forall i | 0 <= i < |rs| :: rs[i].Ok?
    ensures Collect(rs).Ok? ==>
              |Collect(rs).value| == |rs| && forall i | 0 <= i < |rs| :: Collect(rs).value[i] == rs[i].value
    ensures Collect(rs).Err? ==> exists i | 0 <= i < |rs| ::
              rs[i].Err? && Collect(rs).error == rs[i].error && forall j | 0 <= j < i :: rs[j].Ok?
  {
    if rs != [] {
      var init := rs[..|rs| - 1];
      CollectMeaning(init);
      assert forall i | 0 <= i < |rs| - 1 :: init[i] == rs[i];
    }
  }

  /** One more step: the outcome for `rs[..i + 1]` from that for `rs[..i]`. */
  lemma CollectStep<T>(rs: seq<Result<T>>, i: nat, done: seq<T>)
    requires i < |rs| && Collect(rs[..i]) == Ok(done)
    ensures rs[i].Err? ==> Collect(rs[..i + 1]) == Err(rs[i].error)
    ensures rs[i].Ok? ==> Collect(rs[..i + 1]) == Ok(done + [rs[i].value])
  {
    assert rs[..i + 1][..i] == rs[..i];
  }

  /** Once a prefix has failed, the later steps do not matter. */
  lemma {:induction false} CollectStopsEarly<T>(rs: seq<Result<T>>, k: nat)
    requires k <= |rs| && Collect(rs[..k]).Err?
    ensures Collect(rs) == Collect(rs[..k])
  {
    if k < |rs| {
      assert rs[..|rs| - 1][..k] == rs[..k];
      CollectStopsEarly(rs[..|rs| - 1], k);
    } else {
      assert rs[..k] == rs;
    }
  }

  /** Steps taken one after the other, where `None` marks a step skipped: the values of the
      steps taken, in order, or the first error. */
  function CollectPresent<T>(rs: seq<Option<Result<T>>>): Result<seq<T>>
  {
    if rs == [] then Ok([])
    else
      match CollectPresent(rs[..|rs| - 1])
      case Err(e) => Err(e)
      case Ok(done) =>
        match rs[|rs| - 1]
        case None => Ok(done)
        case Some(Err(e)) => Err(e)
        case Some(Ok(v)) => Ok(done + [v])
  }

  /** `CollectPresent` succeeds iff every step taken does. */
  lemma {:induction false} CollectPresentOkIff<T>(rs: seq<Option<Result<T>>>)
    ensures CollectPresent(rs).Ok? <==> forall i | 0 <= i < |rs| :: rs[i].Some? ==> rs[i].value.Ok?
  {
    if rs != [] {
      var init := rs[..|rs| - 1];
      CollectPresentOkIff(init);
      assert forall i | 0 <= i < |rs| - 1 :: init[i] == rs[i];
    }
  }

  /** On success, every value comes from a step taken... */
  lemma {:induction false} CollectPresentListsOnly<T>(rs: seq<Option<Result<T>>>)
    ensures CollectPresent(rs).Ok? ==> forall v | v in CollectPresent(rs).value ::
              exists i | 0 <= i < |rs| :: rs[i] == Some(Ok(v))
  {
    if rs != [] {
      var init := rs[..|rs| - 1];
      CollectPresentListsOnly(init);
      assert forall i | 0 <= i < |rs| - 1 :: init[i] == rs[i];
    }
  }

  /** ...and the value of every step taken is listed. */
  lemma {:induction false} CollectPresentListsEvery<T>(rs: seq<Option<Result<T>>>)
    ensures CollectPresent(rs).Ok? ==> forall i | 0 <= i < |rs| && rs[i].Some? ::
              rs[i].value.Ok? && rs[i].value.value in CollectPresent(rs).value
  {
    if rs != [] {
      var init := rs[..|rs| - 1];
      CollectPresentListsEvery(init);
      assert forall i | 0 <= i < |rs| - 1 :: init[i] == rs[i];
    }
  }

  /** One more step: the outcome for `rs[..i + 1]` from that for `rs[..i]`. */
  lemma CollectPresentStep<T>(rs: seq<Option<Result<T>>>, i: nat, done: seq<T>)
    requires i < |rs| && CollectPresent(rs[..i]) == Ok(done)
    ensures rs[i].None? ==> CollectPresent(rs[..i + 1]) == Ok(done)
    ensures rs[i].Some? && rs[i].value.Err? ==> CollectPresent(rs[..i + 1]) == Err(rs[i].value.error)
    ensures rs[i].Some? && rs[i].value.Ok? ==> CollectPresent(rs[..i + 1]) == Ok(done + [rs[i].value.value])
  {
    assert rs[..i + 1][..i] == rs[..i];
  }

  /** Once a prefix has failed, the later steps do not matter. */
  lemma {:induction false} CollectPresentStopsEarly<T>(rs: seq<Option<Result<T>>>, k: nat)
    requires k <= |rs| && CollectPresent(rs[..k]).Err?
    ensures CollectPresent(rs) == CollectPresent(rs[..k])
  {
    if k < |rs| {
      assert rs[..|rs| - 1][..k] == rs[..k];
      CollectPresentStopsEarly(rs[..|rs| - 1], k);
    } else {
      assert rs[..k] == rs;
    }
  }
}
