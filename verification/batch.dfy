/** The "collect every success, remember the first error with its index"
    loop that both batch conversions of the codec run: each element is
    converted in order, the successes are appended to a list, and the error
    variable is set only while it is still null (`error = error ?? …`). */
module Batch {
  import opened Wrappers
  import opened Text

  /** The values of the successful conversions, in input order. */
  function Successes<T, U>(xs: seq<T>, convert: T -> Result<U>): (oks: seq<U>)
    ensures |oks| <= |xs|
  {
    if xs == [] then []
    else (if convert(xs[0]).Ok? then [convert(xs[0]).value] else []) + Successes(xs[1..], convert)
  }

  /** The lowest index whose conversion fails, if there is one. */
  function FirstFailure<T, U>(xs: seq<T>, convert: T -> Result<U>): (k: Option<nat>)
    ensures k.None? <==> forall i :: 0 <= i < |xs| ==> convert(xs[i]).Ok?
    ensures k.Some? ==>
      && k.value < |xs|
      && convert(xs[k.value]).Err?
      && forall j :: 0 <= j < k.value ==> convert(xs[j]).Ok?
  {
    if xs == [] then None
    else if convert(xs[0]).Err? then Some(0)
    else match FirstFailure(xs[1..], convert)
      case None => None
      case Some(k) => Some(k + 1)
  }

  /** The message the loop builds for a failure at `index`; `what` is the
      word inserted after "error" (empty when decoding, " convert item" when
      encoding). A blank reason is reported as an unknown error. */
  function IndexedMessage(what: string, index: nat, reason: string): (m: string)
    ensures !IsBlank(reason) ==> m == "error" + what + " at index " + Decimal(index) + ": " + reason
    ensures IsBlank(reason) ==> m == "unknown error" + what + " at index " + Decimal(index)
  {
    if IsBlank(reason) then "unknown error" + what + " at index " + Decimal(index)
    else "error" + what + " at index " + Decimal(index) + ": " + reason
  }

  /** The error the batch reports: the message for the first failure. */
  function ReportedError<T, U>(xs: seq<T>, convert: T -> Result<U>, what: string): (e: Option<string>)
    ensures e.None? <==> forall i :: 0 <= i < |xs| ==> convert(xs[i]).Ok?
    ensures e.Some? ==> exists k ::
      && 0 <= k < |xs|
      && convert(xs[k]).Err?
      && (forall j :: 0 <= j < k ==> convert(xs[j]).Ok?)
      && e.value == IndexedMessage(what, k, convert(xs[k]).error)
  {
    match FirstFailure(xs, convert)
    case None => None
    case Some(k) => Some(IndexedMessage(what, k, convert(xs[k]).error))
  }

  /** Successes distribute over concatenation: the successes of a prefix come
      first, in the same order. */
  lemma {:induction false} SuccessesAppend<T, U>(a: seq<T>, b: seq<T>, convert: T -> Result<U>)
    ensures Successes(a + b, convert) == Successes(a, convert) + Successes(b, convert)
  {
    if a == [] {
      assert a + b == b;
    } else {
      var head := if convert(a[0]).Ok? then [convert(a[0]).value] else [];
      assert (a + b)[0] == a[0];
      assert (a + b)[1..] == a[1..] + b;
      SuccessesAppend(a[1..], b, convert);
      assert Successes(a + b, convert) == head + (Successes(a[1..], convert) + Successes(b, convert));
      assert Successes(a, convert) == head + Successes(a[1..], convert);
    }
  }

  /** The lowest failing index is determined by its defining property. */
  lemma FirstFailureUnique<T, U>(xs: seq<T>, convert: T -> Result<U>, k: nat)
    requires k < |xs| && convert(xs[k]).Err?
    requires forall j :: 0 <= j < k ==> convert(xs[j]).Ok?
    ensures FirstFailure(xs, convert) == Some(k)
  {
    var r := FirstFailure(xs, convert);
    assert r.Some?;
    assert !(r.value < k) && !(k < r.value);
  }

  /** Extending the input by one element keeps an earlier failure; otherwise
      the new element's failure, if any, becomes the first. */
  lemma FirstFailureSnoc<T, U>(xs: seq<T>, x: T, convert: T -> Result<U>)
    ensures FirstFailure(xs + [x], convert) ==
      if FirstFailure(xs, convert).Some? then FirstFailure(xs, convert)
      else if convert(x).Err? then Some(|xs|)
      else None
  {
    var ys := xs + [x];
    assert forall i :: 0 <= i < |xs| ==> ys[i] == xs[i];
    assert ys[|xs|] == x;
    var k := FirstFailure(xs, convert);
    if k.Some? {
      FirstFailureUnique(ys, convert, k.value);
    } else if convert(x).Err? {
      FirstFailureUnique(ys, convert, |xs|);
    } else {
      assert forall i :: 0 <= i < |ys| ==> convert(ys[i]).Ok?;
    }
  }

  /** Every input converted exactly when as many values came out as went in;
      the successes are then the converted values position by position. */
  lemma {:induction false} SuccessesComplete<T, U>(xs: seq<T>, convert: T -> Result<U>)
    ensures |Successes(xs, convert)| == |xs| <==> forall i :: 0 <= i < |xs| ==> convert(xs[i]).Ok?
    ensures (forall i :: 0 <= i < |xs| ==> convert(xs[i]).Ok?) ==>
      forall i :: 0 <= i < |xs| ==> Ok(Successes(xs, convert)[i]) == convert(xs[i])
  {
    if xs != [] {
      SuccessesComplete(xs[1..], convert);
      assert forall i :: 1 <= i < |xs| ==> xs[i] == xs[1..][i - 1];
      if convert(xs[0]).Ok? && |Successes(xs[1..], convert)| == |xs| - 1 {
        assert forall i :: 0 <= i < |xs| - 1 ==> convert(xs[1..][i]).Ok?;
      }
    }
  }

  /** Every value in the successes came from converting some input. */
  lemma {:induction false} SuccessesSound<T, U>(xs: seq<T>, convert: T -> Result<U>, v: U)
    requires v in Successes(xs, convert)
    ensures exists i :: 0 <= i < |xs| && convert(xs[i]) == Ok(v)
  {
    if convert(xs[0]).Ok? && v == convert(xs[0]).value {
      assert convert(xs[0]) == Ok(v);
    } else {
      SuccessesSound(xs[1..], convert, v);
      var i :| 0 <= i < |xs[1..]| && convert(xs[1..][i]) == Ok(v);
      assert convert(xs[i + 1]) == Ok(v);
    }
  }

  /** First error wins: once a prefix has reported an error, converting more
      elements never changes it. */
  lemma FirstErrorStable<T, U>(xs: seq<T>, ys: seq<T>, convert: T -> Result<U>, what: string)
    requires ReportedError(xs, convert, what).Some?
    ensures ReportedError(xs + ys, convert, what) == ReportedError(xs, convert, what)
  {
    var zs := xs + ys;
    var k := FirstFailure(xs, convert).value;
    assert forall j :: 0 <= j <= k ==> zs[j] == xs[j];
    FirstFailureUnique(zs, convert, k);
  }

  /** The batch loop: converts each element in order, appends every success
      and keeps the message of the first failure only. */
  method CollectAll<T, U>(xs: seq<T>, convert: T -> Result<U>, what: string)
    returns (oks: seq<U>, error: Option<string>)
    ensures oks == Successes(xs, convert)
    ensures error == ReportedError(xs, convert, what)
  {
    error := None;
    oks := [];
    for index := 0 to |xs|
      invariant oks == Successes(xs[..index], convert)
      invariant error == ReportedError(xs[..index], convert, what)
    {
      assert xs[..index + 1] == xs[..index] + [xs[index]];
      SuccessesAppend(xs[..index], [xs[index]], convert);
      FirstFailureSnoc(xs[..index], xs[index], convert);
      var result := convert(xs[index]);
      if result.Err? {
        error := if error.Some? then error else Some(IndexedMessage(what, index, result.error));
        continue;
      }
      oks := oks + [result.value];
    }
    assert xs[..|xs|] == xs;
  }
}
