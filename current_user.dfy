/** The `CurrentUser` parameter decorator: the whole `request.user`, or one
    of its fields when a key is given. */
module CurrentUser {
  import opened Wrappers
  import opened JsValues

  /** `!user ? null : !data ? user : user[data]`, where `user` is `None` when
      the request carries none and `data` is the optional key. */
  function CurrentUser(user: Option<map<string, JsValue>>, data: Option<string>): (r: JsValue)
    ensures user.None? ==> r == Null
    ensures user.Some? && (data.None? || data.value == []) ==> r == Object(user.value)
    ensures user.Some? && data.Some? && data.value != [] && data.value in user.value ==>
      r == user.value[data.value]
    ensures user.Some? && data.Some? && data.value != [] && data.value !in user.value ==>
      r == Undefined
  {
    match user
    case None => Null
    case Some(u) =>
      if data.None? || data.value == [] then Object(u) else Get(u, data.value)
  }

  /** A missing field is `undefined`, never `null`, so the caller can tell
      "no user" from "user without that field". */
  lemma MissingFieldIsNotNoUser(u: map<string, JsValue>, key: string)
    requires key != [] && key !in u
    ensures CurrentUser(Some(u), Some(key)) != CurrentUser(None, Some(key))
  {
  }
}
