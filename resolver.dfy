// The match resolver: on every texture unlock it fingerprints the texture,
// then reuses a cached replacement, builds one from a catalogued asset, or
// records a miss; on every texture set it swaps in the first cached
// replacement among the bound handles.

module Resolver {
  import opened Word
  import opened Text
  import opened Pixels
  import opened Fnv
  import opened Catalog
  import opened Cache
  import opened Builder

  /** The names `get_fields` leaves in its three out-parameters; "" when unset. */
  datatype Fields = Fields(found: bool, combined: string, upper: string, lower: string)

  /**
   * `get_fields`: a name for the whole texture wins; otherwise the upper
   * object's name is looked up, and the lower object's only when the upper
   * one has none.
   */
  function GetFields(names: Names, fps: Fingerprints): (f: Fields)
    ensures f.found <==> FirstField(names, fps.combined).Some? || FirstField(names, fps.upper).Some? || FirstField(names, fps.lower).Some?
  {
    match FirstField(names, fps.combined)
    case Some(n) => Fields(true, n, "", "")
    case None =>
      match FirstField(names, fps.upper)
      case Some(n) => Fields(true, "", n, "")
      case None =>
        match FirstField(names, fps.lower)
        case Some(n) => Fields(true, "", "", n)
        case None => Fields(false, "", "", "")
  }

  /** At most one name is ever set, in the priority combined, upper, lower. */
  lemma GetFieldsPriority(names: Names, fps: Fingerprints)
    ensures var f := GetFields(names, fps);
      && (FirstField(names, fps.combined).Some? ==> f == Fields(true, FirstField(names, fps.combined).value, "", ""))
      && (f.upper != [] ==> FirstField(names, fps.combined).None? && f.upper == FirstField(names, fps.upper).value)
      && (f.lower != [] ==> FirstField(names, fps.combined).None? && FirstField(names, fps.upper).None?
                            && f.lower == FirstField(names, fps.lower).value)
      && (f.combined == [] || (f.upper == [] && f.lower == []))
      && (f.upper == [] || f.lower == [])
  {
  }

  /** What an unlock does with an eligible texture. */
  datatype Decision =
    | ReuseCached(key: U64)             // share the replacement cached under `key`
    | Build(key: U64, request: Request) // build from assets, and on success cache it under `key`
    | BothCached                        // both objects cached: not implemented, the handle is erased
    | NoMatch                           // nothing cached, nothing catalogued

  /** The decision tree of `UnlockRect`, for a texture of the right size, format and pool. */
  function Decide(c: TextureCache, names: Names, fps: Fingerprints): Decision
  {
    if Contains(c, fps.combined) then ReuseCached(fps.combined)
    else
      var f := GetFields(names, fps);
      if f.combined != [] then Build(fps.combined, Request(Some(f.combined), None, None))
      else
        var useUpper := Contains(c, fps.upper);
        var useLower := Contains(c, fps.lower);
        if useUpper && useLower then BothCached
        else if f.upper != [] && f.lower != [] then Build(fps.combined, Request(None, Some(f.upper), Some(f.lower)))
        else if useUpper then ReuseCached(fps.upper)
        // The reuse of a cached lower object is stored under the lower hash.
        else if useLower then ReuseCached(fps.lower)
        // An upper object alone is built as a whole texture from its asset.
        else if f.upper != [] then Build(fps.upper, Request(Some(f.upper), None, None))
        // A lower object alone is stored under the combined hash.
        else if f.lower != [] then Build(fps.combined, Request(None, None, Some(f.lower)))
        else NoMatch
  }

  /** A reuse always names a cached fingerprint, and a build never overwrites a cached one. */
  lemma DecisionKeys(c: TextureCache, names: Names, fps: Fingerprints)
    ensures Decide(c, names, fps).ReuseCached? ==> Contains(c, Decide(c, names, fps).key)
    ensures Decide(c, names, fps).Build? ==> !Contains(c, Decide(c, names, fps).key)
  {
  }

  /** The branch that builds from both objects' names can never be taken. */
  lemma BothHalvesBuildUnreachable(c: TextureCache, names: Names, fps: Fingerprints)
    ensures var d := Decide(c, names, fps);
      d.Build? ==> d.request.upper.None? || d.request.lower.None?
  {
    GetFieldsPriority(names, fps);
  }

  /**
   * The keys the builds and reuses use: a cached texture is reused first;
   * a whole-texture or lower-object build is cached under the combined hash,
   * an upper-object build under the upper hash, and a lower-object reuse
   * under the lower hash.
   */
  lemma DecisionShapes(c: TextureCache, names: Names, fps: Fingerprints)
    ensures Contains(c, fps.combined) ==> Decide(c, names, fps) == ReuseCached(fps.combined)
    ensures var d := Decide(c, names, fps);
      && (d.Build? && d.request.lower.Some? ==> d.key == fps.combined && d.request.combined.None?)
      && (d.Build? && d.request.combined.Some? ==>
            ((d.key == fps.combined && d.request.combined == FirstField(names, fps.combined))
             || (d.key == fps.upper && FirstField(names, fps.combined).None? && d.request.combined == FirstField(names, fps.upper))))
      && (d == ReuseCached(fps.lower) && fps.lower != fps.combined && fps.lower != fps.upper ==>
            !Contains(c, fps.combined) && !Contains(c, fps.upper) && Contains(c, fps.lower))
  {
    GetFieldsPriority(names, fps);
  }

  /** Every name a catalog records is non-empty. */
  predicate NamesNonEmpty(names: Names)
  {
    forall h :: h in names ==> forall i :: 0 <= i < |names[h]| ==> names[h][i] != []
  }

  /** With a well-formed catalog of non-empty names, a miss means no fingerprint is cached or catalogued. */
  lemma NoMatchIff(c: TextureCache, names: Names, fps: Fingerprints)
    requires WellFormed(names) && NamesNonEmpty(names)
    ensures Decide(c, names, fps) == NoMatch <==>
      && !Contains(c, fps.combined) && !Contains(c, fps.upper) && !Contains(c, fps.lower)
      && fps.combined !in names && fps.upper !in names && fps.lower !in names
  {
    GetFieldsPriority(names, fps);
    if fps.combined in names { assert names[fps.combined][0] != []; }
    if fps.upper in names { assert names[fps.upper][0] != []; }
    if fps.lower in names { assert names[fps.lower][0] != []; }
  }

  /** `pTexture && Width < 640 && Height < 480 && A8R8G8B8 && MANAGED`: textures of 640x480 and up are video. */
  predicate Eligible(handle: Handle, img: Image, isA8R8G8B8: bool, isManaged: bool)
  {
    handle != Null && img.width < 640 && img.height < 480 && isA8R8G8B8 && isManaged
  }

  /** What an unlock leaves: the cache, and whether the handle kept a replacement. */
  datatype Outcome = Outcome(cache: TextureCache, used: bool)

  /**
   * Carrying out a decision for `handle`. A build succeeds exactly when
   * `create_newhandle`, as written, has a plan; `replacement` is the texture
   * it then creates. A handle not used afterwards is erased.
   */
  function Apply(c: TextureCache, handle: Handle, d: Decision, assets: Assets, replacement: Handle): (o: Outcome)
    requires Valid(c) && replacement != Null
    requires d.ReuseCached? ==> Contains(c, d.key)
    ensures Valid(o.cache)
    ensures o.used <==> d.ReuseCached? || (d.Build? && PlanAsWritten(d.request, assets).Some?)
    ensures !o.used ==> o.cache == Erase(c, handle)
  {
    match d
    case ReuseCached(k) => Outcome(Reuse(c, handle, k), true)
    case Build(k, req) =>
      if PlanAsWritten(req, assets).Some? then Outcome(Store(c, handle, k, replacement), true)
      else Outcome(Erase(c, handle), false)
    case _ => Outcome(Erase(c, handle), false)
  }

  /** The cache after `UnlockRect`, given the texture's fingerprints. */
  function Unlock(c: TextureCache, names: Names, handle: Handle, eligible: bool, fps: Fingerprints,
                  assets: Assets, replacement: Handle): Outcome
    requires Valid(c) && replacement != Null
  {
    if !eligible then Outcome(Erase(c, handle), false)
    else
      DecisionKeys(c, names, fps);
      Apply(c, handle, Decide(c, names, fps), assets, replacement)
  }

  /**
   * An unlock changes only its own handle's replacement: the handle has one
   * afterwards exactly when it was used, and that is the replacement a
   * reuse shares or a build creates.
   */
  lemma UnlockTouchesOnlyItsHandle(c: TextureCache, names: Names, handle: Handle, eligible: bool,
                                   fps: Fingerprints, assets: Assets, replacement: Handle)
    requires Valid(c) && replacement != Null
    ensures var o := Unlock(c, names, handle, eligible, fps, assets, replacement);
      && Valid(o.cache)
      && (forall g :: g != handle ==> At(o.cache, g) == At(c, g))
      && (At(o.cache, handle).Some? <==> o.used)
      && (o.used && Decide(c, names, fps).Build? ==> At(o.cache, handle) == Some(replacement))
      && (o.used && Decide(c, names, fps).ReuseCached? ==>
            At(o.cache, handle) == Some(c.replacements[Decide(c, names, fps).key]))
  {
    DecisionKeys(c, names, fps);
  }

  /** Every path that does not reuse or build successfully erases the handle. */
  lemma UnlockErasesOtherwise(c: TextureCache, names: Names, handle: Handle, eligible: bool,
                              fps: Fingerprints, assets: Assets, replacement: Handle)
    requires Valid(c) && replacement != Null
    ensures var o := Unlock(c, names, handle, eligible, fps, assets, replacement);
      var d := Decide(c, names, fps);
      o.used <==> eligible && (d.ReuseCached? || (d.Build? && PlanAsWritten(d.request, assets).Some?))
  {
    DecisionKeys(c, names, fps);
  }

  /**
   * A lower-object build whose asset does not open still caches a new
   * texture under the key, where the intended decision would have no plan
   * and erase the handle.
   */
  lemma MissingLowerAssetStillCached(c: TextureCache, handle: Handle, key: U64, lowerName: string,
                                     assets: Assets, replacement: Handle)
    requires Valid(c) && replacement != Null
    requires lowerName != [] && !assets(AssetPath(lowerName))
    ensures var o := Apply(c, handle, Build(key, Request(None, None, Some(lowerName))), assets, replacement);
      && o.used && At(o.cache, handle) == Some(replacement) && Contains(o.cache, key)
      && PlanFor(Request(None, None, Some(lowerName)), assets).None?
  {
    assert !Opens(assets, Some(lowerName));
  }

  /** One line of the no-match log: the texture's number and its three fingerprints. */
  datatype Miss = Miss(textureNumber: nat, fps: Fingerprints)

  /** The logged misses are exactly the set's fingerprints, each logged once. */
  predicate LogMatchesSet(seen: set<U64>, log: seq<Miss>)
  {
    && (forall i :: 0 <= i < |log| ==> log[i].fps.combined in seen)
    && (forall h :: h in seen ==> exists i :: 0 <= i < |log| && log[i].fps.combined == h)
    && (forall i, j :: 0 <= i < j < |log| ==> log[i].fps.combined != log[j].fps.combined)
  }

  /** `nomatch_set.insert(hash_combined).second`: a miss is logged only the first time its combined hash is seen. */
  function RecordMiss(seen: set<U64>, log: seq<Miss>, miss: Miss): (r: (set<U64>, seq<Miss>))
    requires LogMatchesSet(seen, log)
    ensures LogMatchesSet(r.0, r.1)
    ensures r.0 == seen + {miss.fps.combined}
    ensures miss.fps.combined in seen ==> r.1 == log
    ensures miss.fps.combined !in seen ==> r.1 == log + [miss]
  {
    if miss.fps.combined in seen then (seen, log)
    else
      var log' := log + [miss];
      assert log'[|log|].fps.combined == miss.fps.combined;
      assert forall i :: 0 <= i < |log| ==> log'[i] == log[i];
      (seen + {miss.fps.combined}, log')
  }

  /** The first bound handle with a cached replacement, and that replacement. */
  function FirstReplacement(c: TextureCache, handles: seq<Handle>): (r: Option<Handle>)
    requires Valid(c)
    ensures r.Some? <==> exists j :: 0 <= j < |handles| && handles[j] != Null && At(c, handles[j]).Some?
    decreases |handles|
  {
    if handles == [] then None
    else if handles[0] != Null && At(c, handles[0]).Some? then At(c, handles[0])
    else
      var rest := FirstReplacement(c, handles[1..]);
      assert forall j :: 1 <= j < |handles| ==> handles[j] == handles[1..][j - 1];
      rest
  }

  /** The replacement chosen belongs to the first handle in array order that has one. */
  lemma {:induction false} FirstReplacementIsFirst(c: TextureCache, handles: seq<Handle>, j: nat)
    requires Valid(c) && j < |handles| && handles[j] != Null && At(c, handles[j]).Some?
    requires forall k :: 0 <= k < j ==> handles[k] == Null || At(c, handles[k]).None?
    ensures FirstReplacement(c, handles) == At(c, handles[j])
    decreases j
  {
    if j > 0 {
      FirstReplacementIsFirst(c, handles[1..], j - 1);
    }
  }

  /** The state `UnlockRect` and `SetTexture` share. */
  class Context {
    const fieldmap: FieldMap
    var cache: TextureCache
    var nomatchSet: set<U64>
    var nomatchLog: seq<Miss>
    var textureCount: nat

    predicate Valid()
      reads this, fieldmap
    {
      fieldmap.Valid() && Cache.Valid(cache) && LogMatchesSet(nomatchSet, nomatchLog)
    }

    constructor(fieldmap: FieldMap)
      requires fieldmap.Valid()
      ensures Valid() && this.fieldmap == fieldmap
      ensures cache == Cache.Empty && nomatchSet == {} && nomatchLog == [] && textureCount == 0
    {
      this.fieldmap := fieldmap;
      cache := Cache.Empty;
      nomatchSet := {};
      nomatchLog := [];
      textureCount := 0;
    }

    /**
     * `UnlockRect`: fingerprint the texture, decide, update the cache, log a
     * first miss of a non-empty texture, and count the texture. `assets`
     * says which asset files open and `replacement` is the texture a
     * successful build creates.
     */
    method UnlockRect(handle: Handle, img: Image, isA8R8G8B8: bool, isManaged: bool,
                      assets: Assets, replacement: Handle)
      requires Valid() && replacement != Null
      modifies this
      ensures Valid()
      ensures var eligible := Eligible(handle, img, isA8R8G8B8, isManaged);
        var fps := CombinedSpec(img, FnvCoords, true);
        && cache == Unlock(old(cache), fieldmap.names, handle, eligible, fps, assets, replacement).cache
        && (if eligible && Decide(old(cache), fieldmap.names, fps) == NoMatch && img.width > 0 && img.height > 0
            then (nomatchSet, nomatchLog) == RecordMiss(old(nomatchSet), old(nomatchLog), Miss(old(textureCount), fps))
            else nomatchSet == old(nomatchSet) && nomatchLog == old(nomatchLog))
      ensures textureCount == old(textureCount) + 1
    {
      var eligible := Eligible(handle, img, isA8R8G8B8, isManaged);
      var fps := CombinedSpec(img, FnvCoords, true);
      if eligible {
        var hash, hashUpper, hashLower := FnvHashCombined(img, FnvCoords, true);
        fps := Fingerprints(hash, hashUpper, hashLower);
        var decision := Decide(cache, fieldmap.names, fps);
        DecisionKeys(cache, fieldmap.names, fps);
        cache := Apply(cache, handle, decision, assets, replacement).cache;
        if decision == NoMatch && img.width > 0 && img.height > 0 {
          nomatchSet, nomatchLog := RecordMiss(nomatchSet, nomatchLog, Miss(textureCount, fps)).0,
                                    RecordMiss(nomatchSet, nomatchLog, Miss(textureCount, fps)).1;
        }
      } else {
        cache := Erase(cache, handle);
      }
      textureCount := textureCount + 1;
    }

    /** `SetTexture`: the replacement of the first non-null handle that has one, in array order. */
    method SetTexture(handles: seq<Handle>) returns (replacement: Option<Handle>)
      requires Valid()
      ensures replacement == FirstReplacement(cache, handles)
    {
      var j := 0;
      while j < |handles|
        invariant 0 <= j <= |handles|
        invariant forall k :: 0 <= k < j ==> handles[k] == Null || At(cache, handles[k]).None?
      {
        if handles[j] != Null {
          var found := At(cache, handles[j]);
          if found.Some? {
            FirstReplacementIsFirst(cache, handles, j);
            return found;
          }
        }
        j := j + 1;
      }
      NoReplacement(cache, handles);
      return None;
    }
  }

  lemma NoReplacement(c: TextureCache, handles: seq<Handle>)
    requires Valid(c)
    requires forall k :: 0 <= k < |handles| ==> handles[k] == Null || At(c, handles[k]).None?
    ensures FirstReplacement(c, handles) == None
  {
  }
}
