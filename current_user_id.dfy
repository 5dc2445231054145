/** The `CurrentUserId` parameter decorator: the authenticated user's id,
    taken from the token's `sub` claim or, failing that, from `id`. */
module CurrentUserId {
  import opened Wrappers
  import opened JsValues

  /** `user?.sub ?? user?.id ?? null`, for `request.user` absent (`None`) or present. */
  function CurrentUserId(user: Option<map<string, JsValue>>): (r: JsValue)
    ensures user.None? ==> r == Null
    ensures user.Some? && !Nullish(Get(user.value, "sub")) ==> r == Get(user.value, "sub")
    ensures user.Some? && Nullish(Get(user.value, "sub")) && !Nullish(Get(user.value, "id")) ==>
      r == Get(user.value, "id")
    ensures r == Null <==> user.None? || (Nullish(Get(user.value, "sub")) && Nullish(Get(user.value, "id")))
    ensures r != Undefined
  {
    match user
    case None => Null
    case Some(u) => Coalesce(Coalesce(Get(u, "sub"), Get(u, "id")), Null)
  }

  /** A present `sub` wins over `id`, even when `id` is present too. */
  lemma SubWins(sub: string, id: string)
    ensures CurrentUserId(Some(map["sub" := Str(sub), "id" := Str(id)])) == Str(sub)
  {
  }

  /** An empty `sub` claim is returned as it is: `??` does not skip `''`. */
  lemma EmptySubKept(id: string)
    ensures CurrentUserId(Some(map["sub" := Str([]), "id" := Str(id)])) == Str([])
  {
  }

  /** A `null` `sub` falls through to `id`. */
  lemma NullSubFallsBack(id: string)
    ensures CurrentUserId(Some(map["sub" := Null, "id" := Str(id)])) == Str(id)
  {
  }
}
