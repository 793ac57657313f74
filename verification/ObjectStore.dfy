/** One object of the remote store with strong entity tags: conditional put and delete
    as in sections 13.1.1 and 13.1.2 of RFC 9110. */
module ObjectStore {
  import opened Ordering

  datatype Object<V> = Object(etag: string, value: V)

  /** `used` holds every tag the object ever had: a tag is never given out twice
      (section 8.8.1 of RFC 9110). */
  datatype Store<V> = Store(item: Option<Object<V>>, used: set<string>)

  datatype PutCondition = IfAbsent | IfMatchEtag(etag: string)

  predicate Allows<V>(s: Store<V>, c: PutCondition)
  {
    match c
    case IfAbsent => s.item.None?
    case IfMatchEtag(etag) => s.item.Some? && s.item.value.etag == etag
  }

  /** A put that meets its condition, under a fresh tag. */
  function Put<V>(s: Store<V>, v: V, tag: string): Store<V>
  {
    Store(Some(Object(tag, v)), s.used + {tag})
  }

  function Delete<V>(s: Store<V>): Store<V>
  {
    s.(item := None)
  }

  function Current<V>(s: Store<V>): Option<V>
  {
    if s.item.Some? then Some(s.item.value.value) else None
  }

  ghost predicate StoreOk<V>(s: Store<V>)
  {
    s.item.Some? ==> s.item.value.etag in s.used
  }

  /** A client that saw tag `etag` and then read `value` may act on the pair: as long as the
      object still has that tag, it has that value. */
  ghost predicate Observed<V>(s: Store<V>, etag: string, value: V)
  {
    etag in s.used && (s.item.Some? && s.item.value.etag == etag ==> s.item.value.value == value)
  }

  /** Reading after seeing a tag gives such a pair, even if the object changed in between. */
  lemma ReadObserves<V>(s: Store<V>, etag: string)
    requires etag in s.used && s.item.Some?
    ensures Observed(s, etag, s.item.value.value)
  {
  }

  /** And no later write can break it, tags being fresh. */
  lemma WritesKeepObserved<V>(s: Store<V>, etag: string, value: V, v: V, tag: string)
    requires Observed(s, etag, value) && tag !in s.used
    ensures Observed(Put(s, v, tag), etag, value) && Observed(Delete(s), etag, value)
  {
  }
}
