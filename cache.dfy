// The texture cache as the resolver uses it: source-texture handles map to a
// fingerprint, and each cached fingerprint maps to one replacement texture,
// so textures with the same fingerprint share one replacement. Only the
// operations the resolver calls are modelled (`contains`, the two `insert`
// forms, `erase`, `at`); the cache's own capacity handling is not.

module Cache {
  import opened Word
  import opened Text

  /** An opaque host texture handle; 0 is the null handle. */
  type Handle = nat

  const Null: Handle := 0

  datatype TextureCache = TextureCache(sources: map<Handle, U64>, replacements: map<U64, Handle>)

  const Empty: TextureCache := TextureCache(map[], map[])

  /** Every source handle's fingerprint has a replacement, and no replacement is null. */
  predicate Valid(c: TextureCache)
  {
    && (forall h :: h in c.sources ==> c.sources[h] in c.replacements)
    && (forall fp :: fp in c.replacements ==> c.replacements[fp] != Null)
  }

  /** `cache->contains(fp)`: a replacement is cached under the fingerprint. */
  predicate Contains(c: TextureCache, fp: U64)
  {
    fp in c.replacements
  }

  /** `cache->at(h)`: the replacement for a source handle, none when the cache has none. */
  function At(c: TextureCache, h: Handle): (r: Option<Handle>)
    requires Valid(c)
    ensures r.Some? <==> h in c.sources
    ensures r.Some? ==> r.value != Null && r.value == c.replacements[c.sources[h]]
  {
    if h in c.sources then Some(c.replacements[c.sources[h]]) else None
  }

  /** `cache->insert(h, fp)`: the handle shares the replacement already cached under `fp`. */
  function Reuse(c: TextureCache, h: Handle, fp: U64): (r: TextureCache)
    requires Valid(c) && Contains(c, fp)
    ensures Valid(r)
    ensures At(r, h) == Some(c.replacements[fp])
    ensures forall g :: g != h ==> At(r, g) == At(c, g)
    ensures r.replacements == c.replacements
  {
    TextureCache(c.sources[h := fp], c.replacements)
  }

  /** `cache->insert(h, fp, newhandle)`: a new replacement is cached under `fp` and the handle uses it. */
  function Store(c: TextureCache, h: Handle, fp: U64, replacement: Handle): (r: TextureCache)
    requires Valid(c) && replacement != Null
    ensures Valid(r) && Contains(r, fp)
    ensures At(r, h) == Some(replacement)
    ensures !Contains(c, fp) ==> forall g :: g != h ==> At(r, g) == At(c, g)
    ensures forall k :: k != fp && Contains(c, k) ==> Contains(r, k)
  {
    TextureCache(c.sources[h := fp], c.replacements[fp := replacement])
  }

  /** `cache->erase(h)`: the handle no longer has a replacement; the other handles keep theirs. */
  function Erase(c: TextureCache, h: Handle): (r: TextureCache)
    requires Valid(c)
    ensures Valid(r)
    ensures At(r, h) == None
    ensures forall g :: g != h ==> At(r, g) == At(c, g)
    ensures r.replacements == c.replacements
  {
    TextureCache(c.sources - {h}, c.replacements)
  }

  /**
   * Two handles reusing one fingerprint see the same replacement, and erasing
   * one of them leaves the other's replacement in place.
   */
  lemma SharedReplacementSurvivesErase(c: TextureCache, h1: Handle, h2: Handle, fp: U64)
    requires Valid(c) && Contains(c, fp) && h1 != h2
    ensures var both := Reuse(Reuse(c, h1, fp), h2, fp);
      && At(both, h1) == At(both, h2) == Some(c.replacements[fp])
      && At(Erase(both, h1), h2) == Some(c.replacements[fp])
      && At(Erase(both, h1), h1) == None
  {
    var one := Reuse(c, h1, fp);
    assert At(Reuse(one, h2, fp), h1) == At(one, h1);
  }

  /** A replacement stored under a fresh fingerprint is what every later reuse of that fingerprint gets. */
  lemma StoreThenReuse(c: TextureCache, h1: Handle, h2: Handle, fp: U64, replacement: Handle)
    requires Valid(c) && replacement != Null
    ensures var s := Store(c, h1, fp, replacement);
      At(Reuse(s, h2, fp), h2) == Some(replacement)
  {
    var s := Store(c, h1, fp, replacement);
    assert s.replacements[fp] == replacement;
  }
}
