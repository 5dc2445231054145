/** The model output as the evaluation service reads it: finding the
    hidden-state tensor in whatever the feature extractor returned, checking
    its shape, and averaging its token rows into one embedding vector. */
module Tensor {
  import opened Wrappers
  import opened JsValues

  const InvalidTensor: string := "Invalid tensor format returned by model"
  const UnexpectedOutput: string := "Unexpected output from feature extractor"

  /** `typeof v.length === 'number'` for the values `data` can be. */
  predicate HasNumericLength(v: JsValue) {
    match v
    case Str(_) => true
    case Array(_) => true
    case Object(fields) => Get(fields, "length").Num?
    case _ => false
  }

  /** The shape test of `ensureTensorLike`: an object whose `dims` is an
      array of at least two entries and whose `data` is truthy with a
      numeric length. */
  predicate IsTensorLike(v: JsValue) {
    && v.Object?
    && Get(v.fields, "dims").Array?
    && |Get(v.fields, "dims").items| >= 2
    && Truthy(Get(v.fields, "data"))
    && HasNumericLength(Get(v.fields, "data"))
  }

  /** `ensureTensorLike`: the value itself when it has the shape, otherwise
      `ServiceUnavailable`. */
  function EnsureTensorLike(v: JsValue): (r: Result<JsValue>)
    ensures r.Ok? <==> IsTensorLike(v)
    ensures r.Ok? ==> r.value == v
    ensures r.Err? ==> r.error == ServiceUnavailable(InvalidTensor)
  {
    if IsTensorLike(v) then Ok(v) else Err(ServiceUnavailable(InvalidTensor))
  }

  /** `extractLastHiddenState`: a truthy `last_hidden_state` field first, then
      the first element of a non-empty array, then the object itself;
      anything that is not an object is an unexpected output. */
  function ExtractLastHiddenState(raw: JsValue): (r: Result<JsValue>)
    ensures raw.Object? && Truthy(Get(raw.fields, "last_hidden_state")) ==>
      r == EnsureTensorLike(Get(raw.fields, "last_hidden_state"))
    ensures raw.Array? && |raw.items| > 0 ==> r == EnsureTensorLike(raw.items[0])
    ensures !IsObject(raw) ==> r == Err(ServiceUnavailable(UnexpectedOutput))
    ensures r.Ok? ==> IsTensorLike(r.value)
    ensures r == Err(ServiceUnavailable(UnexpectedOutput)) <==> !IsObject(raw)
  {
    if raw.Object? && Truthy(Get(raw.fields, "last_hidden_state")) then
      EnsureTensorLike(Get(raw.fields, "last_hidden_state"))
    else if raw.Array? && |raw.items| > 0 then
      EnsureTensorLike(raw.items[0])
    else if IsObject(raw) then
      EnsureTensorLike(raw)
    else
      Err(ServiceUnavailable(UnexpectedOutput))
  }

  /** A tensor returned directly, without a wrapper, is accepted as it is. */
  lemma BareTensorAccepted(t: JsValue)
    requires IsTensorLike(t) && !Truthy(Get(t.fields, "last_hidden_state"))
    ensures ExtractLastHiddenState(t) == Ok(t)
  {
  }

  /** A wrapped tensor is unwrapped, whatever else the wrapper holds. */
  lemma WrappedTensorUnwrapped(fields: map<string, JsValue>, t: JsValue)
    requires IsTensorLike(t)
    ensures ExtractLastHiddenState(Object(fields["last_hidden_state" := t])) == Ok(t)
  {
  }

  /** An empty array reaches the shape test itself and fails it. */
  lemma EmptyArrayIsInvalid()
    ensures ExtractLastHiddenState(Array([])) == Err(ServiceUnavailable(InvalidTensor))
  {
  }

  // ----------------------------------------------------------- mean pooling

  /** `[tokens, hidden]`: taken from positions 1 and 2 of a three-entry
      shape `[batch, tokens, hidden]`, otherwise from positions 0 and 1. */
  function PoolShape(dims: seq<int>): (shape: (int, int))
    requires |dims| >= 2
    ensures |dims| == 3 ==> shape == (dims[1], dims[2])
    ensures |dims| != 3 ==> shape == (dims[0], dims[1])
  {
    if |dims| == 3 then (dims[1], dims[2]) else (dims[0], dims[1])
  }

  /** The sum over the first `t` token rows of column `h` of a row-major
      `[tokens x hidden]` buffer. */
  function ColumnSum(data: seq<real>, hidden: nat, t: nat, h: nat): real
    requires h < hidden && t * hidden <= |data|
  {
    if t == 0 then 0.0
    else
      RowInBounds(data, hidden, t - 1, h);
      ColumnSum(data, hidden, t - 1, h) + data[(t - 1) * hidden + h]
  }

  /** The mean of column `h` over `tokens` rows; with no rows the sum, 0, is
      multiplied by 1. */
  function ColumnMean(data: seq<real>, tokens: nat, hidden: nat, h: nat): real
    requires h < hidden && tokens * hidden <= |data|
  {
    ColumnSum(data, hidden, tokens, h) * (if tokens > 0 then 1.0 / tokens as real else 1.0)
  }

  lemma RowInBounds(data: seq<real>, hidden: nat, t: nat, h: nat)
    requires h < hidden && (t + 1) * hidden <= |data|
    ensures t * hidden + h < |data| && t * hidden <= |data|
  {
    assert (t + 1) * hidden == t * hidden + hidden;
  }

  lemma RowsShrink(hidden: nat, t: nat, tokens: nat)
    requires t <= tokens
    ensures t * hidden <= tokens * hidden
  {
  }

  /** `meanPool`: the column means of the `[tokens x hidden]` buffer, in a
      fresh vector of length `hidden`. The buffer must hold the
      `tokens * hidden` entries the shape announces. */
  method MeanPool(dims: seq<int>, data: seq<real>) returns (out: array<real>)
    requires |dims| >= 2
    requires PoolShape(dims).0 >= 0 && PoolShape(dims).1 >= 0
    requires PoolShape(dims).0 * PoolShape(dims).1 <= |data|
    ensures fresh(out)
    ensures out.Length == PoolShape(dims).1
    ensures forall h :: 0 <= h < out.Length ==>
      out[h] == ColumnMean(data, PoolShape(dims).0, PoolShape(dims).1, h)
  {
    var tokens: nat, hidden: nat;
    if |dims| == 3 {
      tokens, hidden := dims[1], dims[2];
    } else {
      tokens, hidden := dims[0], dims[1];
    }
    assert tokens * hidden <= |data|;
    out := new real[hidden](_ => 0.0);
    var t := 0;
    while t < tokens
      invariant 0 <= t <= tokens
      invariant t * hidden <= |data|
      invariant forall h :: 0 <= h < hidden ==> out[h] == ColumnSum(data, hidden, t, h)
    {
      RowsShrink(hidden, t + 1, tokens);
      AddRow(out, data, hidden, t);
      t := t + 1;
    }
    Scale(out, data, tokens, hidden);
  }

  /** The inner loop of `meanPool`: adds token row `t` into the sums. */
  method AddRow(out: array<real>, data: seq<real>, hidden: nat, t: nat)
    requires out.Length == hidden && (t + 1) * hidden <= |data|
    requires forall h :: 0 <= h < hidden ==> out[h] == ColumnSum(data, hidden, t, h)
    modifies out
    ensures forall h :: 0 <= h < hidden ==> out[h] == ColumnSum(data, hidden, t + 1, h)
  {
    var offset := t * hidden;
    var h := 0;
    while h < hidden
      invariant 0 <= h <= hidden
      invariant forall k :: 0 <= k < h ==> out[k] == ColumnSum(data, hidden, t + 1, k)
      invariant forall k :: h <= k < hidden ==> out[k] == ColumnSum(data, hidden, t, k)
    {
      RowInBounds(data, hidden, t, h);
      assert ColumnSum(data, hidden, t + 1, h) == ColumnSum(data, hidden, t, h) + data[offset + h];
      out[h] := out[h] + data[offset + h];
      h := h + 1;
    }
  }

  /** The final loop of `meanPool`: multiplies every sum by `1 / tokens`. */
  method Scale(out: array<real>, data: seq<real>, tokens: nat, hidden: nat)
    requires out.Length == hidden && tokens * hidden <= |data|
    requires forall h :: 0 <= h < hidden ==> out[h] == ColumnSum(data, hidden, tokens, h)
    modifies out
    ensures forall h :: 0 <= h < hidden ==> out[h] == ColumnMean(data, tokens, hidden, h)
  {
    var inv := if tokens > 0 then 1.0 / tokens as real else 1.0;
    var h := 0;
    while h < hidden
      invariant 0 <= h <= hidden
      invariant forall k :: 0 <= k < h ==> out[k] == ColumnMean(data, tokens, hidden, k)
      invariant forall k :: h <= k < hidden ==> out[k] == ColumnSum(data, hidden, tokens, k)
    {
      out[h] := out[h] * inv;
      h := h + 1;
    }
  }

  /** With no tokens every column mean is 0. */
  lemma NoTokensZeroVector(data: seq<real>, hidden: nat, h: nat)
    requires h < hidden
    ensures ColumnMean(data, 0, hidden, h) == 0.0
  {
  }

  /** When every token row carries the same value in column `h`, the mean
      is that value. */
  lemma {:induction false} ConstantColumnSum(data: seq<real>, hidden: nat, t: nat, h: nat, c: real)
    requires h < hidden && t * hidden <= |data|
    requires forall s :: 0 <= s < t ==> s * hidden + h < |data| && data[s * hidden + h] == c
    ensures ColumnSum(data, hidden, t, h) == t as real * c
  {
    if t > 0 {
      RowInBounds(data, hidden, t - 1, h);
      RowsShrink(hidden, t - 1, t);
      ConstantColumnSum(data, hidden, t - 1, h, c);
      assert data[(t - 1) * hidden + h] == c;
      assert (t - 1) as real * c + c == t as real * c;
    }
  }

  lemma ConstantColumnMean(data: seq<real>, tokens: nat, hidden: nat, h: nat, c: real)
    requires h < hidden && tokens * hidden <= |data|
    requires forall s :: 0 <= s < tokens ==> s * hidden + h < |data| && data[s * hidden + h] == c
    requires tokens > 0
    ensures ColumnMean(data, tokens, hidden, h) == c
  {
    ConstantColumnSum(data, hidden, tokens, h, c);
    assert (tokens as real * c) * (1.0 / tokens as real) == c;
  }
}
