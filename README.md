# tonberry texture fingerprinting and replacement, in Dafny

tonberry is a Direct3D 9 hook. It replaces the low-resolution textures of a game with high-resolution ones. This project models its texture-matching core and proves properties of that model:

- **Fingerprint engine.** The production FNV-1a style hash reads a table of 121 sample positions. Each sample's intensity is folded in by exclusive-or and then multiplication by the FNV prime, modulo 2^64. With RGB mixing on, three channel means follow. A texture taller than 128 rows also gets an upper-object hash and a lower-object hash. The precomputed "blank half" constants make these agree with the combined hash when the other object is black. The four older bit-comparison hashes of the ConsoleTesting program are modelled too, as are its two truncating FNV variants (`bithash.dfy`, `fnv.dfy`, `word.dfy`, `pixels.dfy`).
- **Catalog and preferences.** `load_fieldmaps` reads comma-separated hash-map lines of exactly 2 or 4 items into a fingerprint-to-names map. A malformed line aborts the whole load. `load_prefs` reads `key=value` lines with case-insensitive keys (`text.dfy`, `catalog.dfy`, `prefs.dfy`).
- **Replacement cache and resolver.** The texture cache is an abstract two-level map: source handle to fingerprint, and fingerprint to replacement handle.
  - `get_fields` looks names up with the priority combined, then upper, then lower.
  - The `UnlockRect` decision tree reuses a cached replacement, builds one, or records a miss. A pure `Decide` function models the tree and a `Context` class applies it.
  - `SetTexture` returns the first bound handle's replacement (`cache.dfy`, `resolver.dfy`).
- **Replacement builder.** It derives the asset path from the field name and decides which assets a build uses. It fills the new texture pixel by pixel: flipped vertically, red and blue swapped, the upper row wrapped when the upper asset is half height, and original pixels scaled up for a half with no asset (`builder.dfy`).

Integers are unbounded in Dafny. A `uint64` is a `nat` below 2^64, and every product is reduced explicitly (`Word.Mul`). Images are abstract: a width, a height and a pixel function. A sample outside the image reads as black.

## Model

| member | source | states |
|---|---|---|
| Word.UInt64Pow | D3D9CallbackSC2/src/GlobalContext.cpp:82-89 | `uint64pow` returns base^exp modulo 2^64, and 1 for a negative exponent (the loop never runs); the ConsoleTesting copy (lines 689-696) is identical |
| Word.XorByte | D3D9CallbackSC2/src/GlobalContext.cpp:267 | `hash ^= val` with a byte keeps the upper 56 bits and xors the low byte; a zero byte changes nothing |
| Word.XorByteSelfInverse | D3D9CallbackSC2/src/GlobalContext.cpp:267 | xoring the same byte in twice restores the hash state |
| Pixels.Sample | D3D9CallbackSC2/src/GlobalContext.cpp:252-256 | a sample outside the texture contributes black (intensity 0, nothing to the channel sums) |
| Pixels.Intensity | D3D9CallbackSC2/src/GlobalContext.cpp:257 | the intensity is the floor of (r+g+b)/3 and so lies in 0..255 |
| Pixels.CoordLessStrictTotalOrder | ConsoleTesting/ConsoleTesting.cpp:23-25 | `coord::operator<` is irreflexive, asymmetric, transitive and total |
| Pixels.CoordLessIsRowMajor | ConsoleTesting/ConsoleTesting.cpp:23-25 | on an image's columns `operator<` is exactly row-major storage order (rows first, then columns), in both directions |
| Fnv.FoldZeros | D3D9CallbackSC2/src/GlobalContext.cpp:91-94 | feeding n zero samples multiplies the FNV state by PRIME^n modulo 2^64 |
| Fnv.Average | D3D9CallbackSC2/src/GlobalContext.cpp:273-283 | a channel mean becomes a byte by round-half-up (production) or truncation (ConsoleTesting), bounded as the real mean |
| Fnv.FnvHash | D3D9CallbackSC2/src/GlobalContext.cpp:244-287 | `FNV_Hash` equals the FNV fold of the sample intensities in table order, followed by the three rounded channel means when RGB is on |
| Fnv.FnvHashTruncating | ConsoleTesting/ConsoleTesting.cpp:139-180 | the pointer overload of the ConsoleTesting `FNV_Hash` folds the same intensities with truncated channel means |
| Fnv.FnvHashDeque | ConsoleTesting/ConsoleTesting.cpp:183-223 | the deque overload returns exactly what the pointer overload returns on the same coordinates |
| Fnv.WalkQueue | ConsoleTesting/ConsoleTesting.cpp:189-206 | the range-for over the deque leaves the FNV fold of every intensity in queue order, the three channel sums and the count of positions |
| Fnv.BlackTextureHash | ConsoleTesting/ConsoleTesting.cpp:139-180 | over an all-black texture `FNV_Hash` is BASIS·PRIME^len without RGB and BASIS·PRIME^(len+3) with RGB, whatever the rounding |
| Fnv.BlackPassIsZeros | D3D9CallbackSC2/src/GlobalContext.cpp:250-284 | a black object feeds only zeros, the channel means included |
| Fnv.LowerWindow | D3D9CallbackSC2/src/GlobalContext.cpp:342-345 | the lower window starts at row min(h-128, 128), spans max(h-128, 128) rows, ends at the texture's last row and shifts the pixels by its start |
| Fnv.TwinPass | D3D9CallbackSC2/src/GlobalContext.cpp:350-395 | the second loop feeds every value of the lower object both into the lower hash and into the running combined hash |
| Fnv.FnvHashCombined | D3D9CallbackSC2/src/GlobalContext.cpp:290-399 | `FNV_Hash_Combined` returns the combined, upper and lower hashes of `CombinedSpec`: the combined hash runs on over the lower window, and the upper and lower hashes use the same steps on their own object; the ConsoleTesting copy (lines 704-808) computes the same |
| Fnv.CombinedSpec | D3D9CallbackSC2/src/GlobalContext.cpp:290-399 | the three fingerprints `FNV_Hash_Combined` returns; its properties are `FnvHashCombined` and the blank-half lemmas below |
| Fnv.NoUpperBasisOdd | D3D9CallbackSC2/src/GlobalContext.cpp:292 | the no-upper bases are odd, hence nonzero, so `if (hash_lower)` at line 337 means "taller than 128 rows" |
| Fnv.NoLowerFactorIsZeroRun | D3D9CallbackSC2/src/GlobalContext.cpp:91-92 | `FNV_NOLOWER(_RGB)_FACTOR` is PRIME raised to the number of values one object feeds (121, or 124 with RGB) |
| Fnv.NoUpperBasisIsBlackObjectHash | D3D9CallbackSC2/src/GlobalContext.cpp:93-94 | `FNV_NOUPPER(_RGB)_BASIS` is the hash of an all-black object sampled at the 121-entry table |
| Fnv.UpperHashMeansBlackLower | D3D9CallbackSC2/src/GlobalContext.cpp:339 | when the lower object is black, the scaled upper hash equals the combined hash |
| Fnv.LowerHashMeansBlackUpper | D3D9CallbackSC2/src/GlobalContext.cpp:292-395 | when the upper object is black, the lower hash equals the combined hash |
| Fnv.AllBlackCombinedHash | D3D9CallbackSC2/src/GlobalContext.cpp:290-399 | a tall texture black at every sample hashes to BASIS·PRIME^(2·values per object) |
| Fnv.ShortTextureIsOneObject | D3D9CallbackSC2/src/GlobalContext.cpp:292-337 | a texture of at most 128 rows has combined == upper == the single `FNV_Hash` pass, and lower == 0 |
| Fnv.RoundingVersusTruncation | ConsoleTesting/ConsoleTesting.cpp:738-743 | the rounded mean of `FNV_Hash_Combined` is the truncated mean of `FNV_Hash`, or one more |
| Fnv.RoundingDiffersOnSomeMean | ConsoleTesting/ConsoleTesting.cpp:171-176 | a channel sum of 61 over 121 samples truncates to 0 but rounds to 1, so the two ConsoleTesting hashes can differ |
| BitHash.HashAlgorithm1 | ConsoleTesting/ConsoleTesting.cpp:44-74 | `Hash_Algorithm_1` returns the packed comparisons over the `hash1` table, each sample against the previous one (sample 0 against the first entry's own sample), with the wrap-around bit or'ed in |
| BitHash.Hash1TopBitAlwaysSet | ConsoleTesting/ConsoleTesting.cpp:49-71 | the first comparison is sample 0 with itself, so bit 63 is always 1 and the wrap-around `|=` never changes the hash; bit 63-i for i ≥ 1 is v_i ≥ v_(i-1) |
| BitHash.OldHashAlgorithm1 | ConsoleTesting/ConsoleTesting.cpp:77-128 | `Old_Hash_Algorithm_1` returns the packed cyclic comparisons of the 64 block samples, slot 0 compared with slot 63 |
| BitHash.FillBlockSamples | ConsoleTesting/ConsoleTesting.cpp:81-116 | the three loop nests fill exactly the 64 slots (32 + 24 + 8) with the block samples, out-of-range blocks left at 0 |
| BitHash.OldHashBits | ConsoleTesting/ConsoleTesting.cpp:118-125 | bit 63-i of the old hash is 1 exactly when `pixval[i] >= pixval[(i+63)%64]` |
| BitHash.HashAlgorithmSlow | ConsoleTesting/ConsoleTesting.cpp:1325-1372 | `Hash_Algorithm_slow` shifts 63 comparisons in and then sets the top bit when the first sample is at least as bright as the last |
| BitHash.ReadBlock | ConsoleTesting/ConsoleTesting.cpp:1330-1353 | the position iteration i derives is block i of the sampling order, and the value read there is that block's sample, 0 outside the image |
| BitHash.WrapChainTopBit | ConsoleTesting/ConsoleTesting.cpp:1356-1367 | after 63 shifts the top bit holds only the wrap-around comparison first ≥ last |
| BitHash.SlowEqualsOld | ConsoleTesting/ConsoleTesting.cpp:1325-1372 | `Hash_Algorithm_slow` computes the same hash as `Old_Hash_Algorithm_1` on every image |
| BitHash.HashAlgorithm1LessSlow | ConsoleTesting/ConsoleTesting.cpp:1375-1472 | `Hash_Algorithm_1_lessslow` as written: the wrap-chain hash of samples whose entries 1 to 3 are pixels (0,1), (0,2) and (0,3) |
| BitHash.LessSlowMissesBlockRows | ConsoleTesting/ConsoleTesting.cpp:1389 | on a concrete image the as-written hash differs from `Hash_Algorithm_slow` |
| BitHash.WrapChainSecondBit | ConsoleTesting/ConsoleTesting.cpp:1356-1367 | below the top bit, bit 62 of the wrap-chain hash is set exactly when sample 1 is at least as bright as sample 0 |
| BitHash.HashAlgorithm1LessSlowFixed | ConsoleTesting/ConsoleTesting.cpp:1389-1390 | with the loop header stepping by the block size, the function computes exactly `Hash_Algorithm_slow` |
| BitHash.FirstColumnBlocks | ConsoleTesting/ConsoleTesting.cpp:1389-1404 | with the header stepping by the block size, the first loop shifts in the comparisons of blocks 1 to 3 of column 0 |
| Text.GetlineFieldsShape | D3D9CallbackSC2/src/GlobalContext.cpp:176-181 | the items split from a line contain no comma, and only the empty line yields no item |
| Text.GetlineFieldsJoin | D3D9CallbackSC2/src/GlobalContext.cpp:176-181 | comma-free items joined with commas (the last non-empty) are split back item for item |
| Text.SplitAllPieces | D3D9CallbackSC2/src/GlobalContext.cpp:179-181 | joining the comma-separated pieces gives the line back |
| Text.IEqualsIsLowerEquality | D3D9CallbackSC2/src/GlobalContext.cpp:137-143 | `boost::iequals` is equality after ASCII case folding, in both directions |
| Text.LastIndexOf | D3D9CallbackSC2/src/GlobalContext.cpp:426 | `rfind` gives the last position of the character, or none when it does not occur |
| Text.ParseUnsigned | D3D9CallbackSC2/src/GlobalContext.cpp:29-36 | `ToNumber` of an unsigned type gives a value inside the type, and 0 when no digit follows the leading white space |
| Text.ParseShowDecimal | D3D9CallbackSC2/src/GlobalContext.cpp:29-36 | reading back a written number gives the number, for every value the type holds |
| Catalog.ParseItems | D3D9CallbackSC2/src/GlobalContext.cpp:184-203 | a line is accepted exactly when it has 2 or 4 items; the name is item 0 and the hashes are the parsed items 1 (and 2, 3) |
| Catalog.ParseFormatLine | D3D9CallbackSC2/src/GlobalContext.cpp:183-203 | a line `name,combined[,upper,lower]` written from a comma-free name parses back to that entry, and the empty line is malformed |
| Catalog.AddName | D3D9CallbackSC2/src/GlobalContext.cpp:196 | inserting a name records it under the hash, keeps every earlier name and the first name, and touches no other hash |
| Catalog.ParseFormatItems | D3D9CallbackSC2/src/GlobalContext.cpp:184-203 | the items of an entry with 1 or 3 hashes parse back to that entry |
| Catalog.SplitFormatLine | D3D9CallbackSC2/src/GlobalContext.cpp:176-181 | a written line splits back into its name and decimal hashes |
| Catalog.FieldMap.Insert | D3D9CallbackSC2/src/GlobalContext.cpp:196-203 | `fieldmap->insert` replaces the map with `AddName` of it and keeps the map well formed |
| Catalog.FirstField | D3D9CallbackSC2/src/GlobalContext.cpp:406-413 | `get_first_field` yields one of the hash's names, and yields one exactly when the hash is recorded |
| Catalog.SplitOnCommas | D3D9CallbackSC2/src/GlobalContext.cpp:176-181 | the `getline(sstream, item, ',')` loop produces the items of `GetlineFields` |
| Catalog.LoadLine | D3D9CallbackSC2/src/GlobalContext.cpp:176-204 | a line is accepted exactly when it parses, and then its name is inserted under all of its hashes; otherwise nothing changes |
| Catalog.LoadFieldmaps | D3D9CallbackSC2/src/GlobalContext.cpp:164-214 | the file loop produces the catalog of `LoadFiles` and reports whether it completed |
| Catalog.InsertAllRecords | D3D9CallbackSC2/src/GlobalContext.cpp:193-203 | an accepted line records its name under every hash on it (all three on a 4-item line) and forgets nothing |
| Catalog.LoadKeeps | D3D9CallbackSC2/src/GlobalContext.cpp:184-190 | names inserted before a malformed line are kept |
| Catalog.LoadCompleteIff | D3D9CallbackSC2/src/GlobalContext.cpp:184-190 | a load completes exactly when every line is well formed |
| Catalog.MalformedLineStopsLoad | D3D9CallbackSC2/src/GlobalContext.cpp:184-190 | nothing after a malformed line is read, and the load is incomplete |
| Catalog.MalformedFileStopsLoad | D3D9CallbackSC2/src/GlobalContext.cpp:189 | a malformed line in one file ends the load of every later file |
| Prefs.SplitSettingOf | D3D9CallbackSC2/src/GlobalContext.cpp:132-136 | a line is cut at its first '=' into key and value |
| Prefs.SplitSetting | D3D9CallbackSC2/src/GlobalContext.cpp:132-136 | `find('=')`: a line with '=' is key + '=' + value with no '=' in the key, and a line without '=' gives nothing |
| Prefs.LoadPrefs | D3D9CallbackSC2/src/GlobalContext.cpp:125-152 | as written: `load_prefs` leaves every preference alone when the file does not open, and otherwise applies the lines in order with `ApplyLineAsWritten`, so a debug_mode line compares its key with "yes" (line 141) |
| Prefs.ApplyLineAsWritten | D3D9CallbackSC2/src/GlobalContext.cpp:132-143 | one prefs line as written: cut at the first '=', keys compared case-insensitively, and a debug_mode line setting DEBUG to whether the key is "yes"; its property is `DebugNeverSetAsWritten` |
| Prefs.ApplyLine | D3D9CallbackSC2/src/GlobalContext.cpp:132-143 | the corrected line, comparing the value with "yes"; its properties are `SettingLine` and `CacheSizeLine` |
| Prefs.AsWrittenDiffersOnlyInDebug | D3D9CallbackSC2/src/GlobalContext.cpp:138-143 | the lines as written and as corrected leave the same resize text and cache size; only the debug flag can differ |
| Prefs.SettingLine | D3D9CallbackSC2/src/GlobalContext.cpp:138-143 | corrected version: a `key=value` line sets exactly the preference its key names (case-insensitively) and leaves the others alone; other keys are ignored |
| Prefs.CacheSizeLine | D3D9CallbackSC2/src/GlobalContext.cpp:142-143 | a cache size written in decimal is read back exactly |
| Prefs.NonSettingLinesIgnored | D3D9CallbackSC2/src/GlobalContext.cpp:133 | lines without '=' change nothing |
| Prefs.DebugNeverSetAsWritten | D3D9CallbackSC2/src/GlobalContext.cpp:140-141 | as written, no prefs file can turn debugging on |
| Prefs.DebugLineExample | D3D9CallbackSC2/src/GlobalContext.cpp:141 | `debug_mode=yes` leaves debugging off as written and turns it on as intended |
| Cache.Contains | D3D9CallbackSC2/src/GlobalContext.cpp:539 | `cache->contains(fp)`: a replacement is cached under the fingerprint |
| Cache.At | D3D9CallbackSC2/src/GlobalContext.cpp:644 | `cache->at` yields a non-null replacement exactly for a handle the cache holds |
| Cache.Reuse | D3D9CallbackSC2/src/GlobalContext.cpp:542 | `insert(handle, fp)` gives the handle the replacement cached under fp and changes no other handle |
| Cache.Store | D3D9CallbackSC2/src/GlobalContext.cpp:554 | `insert(handle, fp, newhandle)` caches the new replacement under fp for the handle, and other handles keep theirs when fp was not cached |
| Cache.Erase | D3D9CallbackSC2/src/GlobalContext.cpp:628 | `erase(handle)` removes the handle's replacement and no other handle's |
| Cache.SharedReplacementSurvivesErase | D3D9CallbackSC2/src/GlobalContext.cpp:542-628 | two handles reusing one fingerprint share a replacement, and erasing one leaves the other's |
| Cache.StoreThenReuse | D3D9CallbackSC2/src/GlobalContext.cpp:542-554 | a replacement stored under a fingerprint is what a later reuse of that fingerprint gets |
| Builder.AssetPath | D3D9CallbackSC2/src/GlobalContext.cpp:426 | the asset path of a field name: the folder of its first two characters, the folder of its stem, and `name.png`; its properties are `AssetPathShape` and `AssetPathInjective` |
| Builder.AssetPathShape | D3D9CallbackSC2/src/GlobalContext.cpp:426 | the asset path is `name[0:2]/name[0:last '_']/name.png`, the stem folder dropped when empty |
| Builder.Stem | D3D9CallbackSC2/src/GlobalContext.cpp:426 | `substr(0, rfind("_"))` is a prefix of the name, all of it when there is no '_' |
| Builder.SwapRB | D3D9CallbackSC2/src/GlobalContext.cpp:506 | the written colour has red and blue exchanged and green and alpha kept |
| Builder.AssetPathInjective | D3D9CallbackSC2/src/GlobalContext.cpp:426 | different field names never share an asset file |
| Builder.PlanAsWritten | D3D9CallbackSC2/src/GlobalContext.cpp:422-454 | as written: which bitmaps `create_newhandle` uses, with a lower asset that does not open clearing the upper flag (line 450); `None` is the null return |
| Builder.PlanFor | D3D9CallbackSC2/src/GlobalContext.cpp:422-454 | corrected version of the same decision, a missing lower asset clearing the lower flag; its property is `PlanUsesExactlyTheOpenAssets` |
| Builder.MissingLowerAssetExample | D3D9CallbackSC2/src/GlobalContext.cpp:450 | as written, a missing lower asset clears the upper flag: a lower-only build proceeds with no asset, and an upper+lower build drops the good upper half |
| Builder.PlansAgreeWhenLowerOpens | D3D9CallbackSC2/src/GlobalContext.cpp:422-454 | the written and the corrected decision agree whenever the lower asset opens or is not requested |
| Builder.PlanUsesExactlyTheOpenAssets | D3D9CallbackSC2/src/GlobalContext.cpp:422-454 | of the corrected decision: a combined name is used alone and fails without its asset; otherwise each half is used exactly when named and its asset opens; null exactly when nothing is usable |
| Builder.FallbackRow | D3D9CallbackSC2/src/GlobalContext.cpp:493 | corrected version: the fallback row h-1-y/resize lies inside the original texture |
| Builder.FallbackRowExample | D3D9CallbackSC2/src/GlobalContext.cpp:493 | the hard-coded `/4` is correct at factor 4 and reads row -1 at factor 8 |
| Builder.UpperRow | D3D9CallbackSC2/src/GlobalContext.cpp:498-499 | the flipped upper row, wrapped by the bitmap height when negative, lies inside a bitmap at least half the output's height |
| Builder.OutputPixel | D3D9CallbackSC2/src/GlobalContext.cpp:486-506 | the colour of one output pixel: flipped, red and blue swapped, the upper row wrapped, and the fallback read from the original at the corrected row `FallbackRow` (the written `/4` of lines 493 and 502 agrees only at factor 4) |
| Builder.FillReplacement | D3D9CallbackSC2/src/GlobalContext.cpp:481-508 | the pixel loop writes every output pixel with `OutputPixel`, so it too uses the corrected fallback row |
| Builder.FallbackIsScaledOriginal | D3D9CallbackSC2/src/GlobalContext.cpp:492-503 | of the corrected fill: in a half with no asset, each original pixel becomes a resize×resize block of the output, rows flipped |
| Builder.FullUpperMatchesCombined | D3D9CallbackSC2/src/GlobalContext.cpp:496-500 | a full-height upper asset fills the upper half exactly as a combined build from it would |
| Builder.FullLowerMatchesCombined | D3D9CallbackSC2/src/GlobalContext.cpp:489-491 | a full-height lower asset fills the lower half exactly as a combined build from it would |
| Resolver.GetFields | D3D9CallbackSC2/src/GlobalContext.cpp:401-414 | `get_fields` reports a match exactly when one of the three hashes is catalogued |
| Resolver.GetFieldsPriority | D3D9CallbackSC2/src/GlobalContext.cpp:406-413 | a combined match returns at once with upper and lower unset; the lower name is looked up only when the upper misses; at most one name is set |
| Resolver.BothHalvesBuildUnreachable | D3D9CallbackSC2/src/GlobalContext.cpp:570-578 | the `create_upper && create_lower` branch can never be taken |
| Resolver.Decide | D3D9CallbackSC2/src/GlobalContext.cpp:539-619 | the decision tree of `UnlockRect` for an eligible texture; its properties are `DecisionKeys`, `DecisionShapes`, `BothHalvesBuildUnreachable` and `NoMatchIff` |
| Resolver.DecisionKeys | D3D9CallbackSC2/src/GlobalContext.cpp:539-606 | every reuse names a cached fingerprint, and every build key is not yet cached |
| Resolver.DecisionShapes | D3D9CallbackSC2/src/GlobalContext.cpp:539-606 | a cached combined hash is reused first; whole and lower-only builds are keyed by the combined hash (line 602); an upper-only build is a whole-texture build from the upper name keyed by the upper hash; a cached lower object is reused under the lower hash (line 584) |
| Resolver.NoMatchIff | D3D9CallbackSC2/src/GlobalContext.cpp:608-622 | with non-empty catalogued names, the no-match branch is reached exactly when no hash is cached or catalogued |
| Resolver.Eligible | D3D9CallbackSC2/src/GlobalContext.cpp:524 | a texture is handled only when its handle is non-null, it is below 640x480, A8R8G8B8 and managed |
| Resolver.Apply | D3D9CallbackSC2/src/GlobalContext.cpp:539-628 | as written: the handle is used exactly on a reuse or on a build that `PlanAsWritten` gives a plan, and erased otherwise |
| Resolver.Unlock | D3D9CallbackSC2/src/GlobalContext.cpp:515-628 | the cache after an unlock: an ineligible texture's handle is erased, and otherwise `Apply` carries out `Decide`'s decision; its properties are `UnlockTouchesOnlyItsHandle` and `UnlockErasesOtherwise` |
| Resolver.MissingLowerAssetStillCached | D3D9CallbackSC2/src/GlobalContext.cpp:450-453 | as written, a lower-only build whose asset does not open still caches the new texture under its key (line 602), where the corrected plan would erase the handle |
| Resolver.UnlockTouchesOnlyItsHandle | D3D9CallbackSC2/src/GlobalContext.cpp:524-628 | an unlock changes only its own handle's replacement, which is present exactly when the handle was used, and is the shared or the newly built one |
| Resolver.UnlockErasesOtherwise | D3D9CallbackSC2/src/GlobalContext.cpp:524-628 | as written: wrong size, format or pool, builds that `PlanAsWritten` gives no plan, both halves cached and no match all end in erase, and nothing else does |
| Resolver.RecordMiss | D3D9CallbackSC2/src/GlobalContext.cpp:611-619 | a miss is logged only the first time its combined hash is seen, so each is logged once |
| Resolver.Context.UnlockRect | D3D9CallbackSC2/src/GlobalContext.cpp:515-636 | as written: fingerprints the texture, applies the decision to the cache with the as-written build plan, logs a first miss of a non-empty texture, and always counts the texture |
| Resolver.Context.constructor | D3D9CallbackSC2/src/GlobalContext.cpp:218-221 | the context starts with an empty cache, no logged miss and no texture counted, sharing the loaded field map |
| Resolver.FirstReplacement | D3D9CallbackSC2/src/GlobalContext.cpp:640-651 | a replacement is found exactly when some non-null handle has one |
| Resolver.FirstReplacementIsFirst | D3D9CallbackSC2/src/GlobalContext.cpp:642-647 | the replacement found belongs to the first such handle in array order |
| Resolver.Context.SetTexture | D3D9CallbackSC2/src/GlobalContext.cpp:640-651 | the scan returns `FirstReplacement` of the bound handles |
| Resolver.NoReplacement | D3D9CallbackSC2/src/GlobalContext.cpp:640-651 | when no bound handle has a replacement, the scan finds none and the game keeps its own texture |

## Left out

- Direct3D and OpenCV are not modelled: locking, `CreateTexture`, the device's `SetTexture`, `D3DXSaveTextureToFile` and PNG decoding. Surfaces and decoded assets are given images, and handles are opaque numbers. The pitch of a locked buffer is abstracted away.
- The file system and I/O are not modelled. Directory walking, the `.csv` extension filter, failed opens of hash-map files, and the debug, error and no-match log files are left out. A prefs file that cannot be opened is the `None` input. Catalog files are given as their lines, in the order they are visited. Asset availability is a predicate on paths. The no-match log is the list of `Miss` records. The texture-count file name is not modelled.
- `TextureCache` and `FieldMap` internals are not modelled: their header is not part of this model. Only `contains`, both `insert` forms, `erase`, `at` and the field lookups are modelled. There is no capacity, eviction, persistence or reference counting, and replacements are never released.
- Catalog.FirstField: the source keeps names in an unordered set and takes its first element. The model takes the first name inserted, so which name wins among several is not modelled.
- Text.ParseUnsigned: `ToNumber` is modelled as skipping leading white space and reading decimal digits, with an out-of-range value saturating at the type's largest value. A leading sign is not modelled.
- Prefs.LoadPrefs: `RESIZE_FACTOR` is read as float text. The model keeps the text and does not convert it, because floating point is not modelled.
- Builder.FillReplacement: the fallback for a half with no asset reads original row `h-1-y/resize` (`FallbackRow`). Lines 493 and 502 read `h-1-y/4` whatever `RESIZE_FACTOR` is. The two agree only at factor 4 (`FallbackRowExample`). At a larger factor the source reads rows before the original's buffer, and at a smaller one it reads the wrong rows.
- Builder.FillReplacement: every bitmap the plan uses is assumed at least as large as the rows and columns the fill reads (`Fits`). A combined bitmap must be as large as the output, an upper one at least half its height and a lower one at least half its height, each at least as wide. The source accepts any PNG and reads past a smaller bitmap's rows or columns at lines 488, 491 and 500. This also covers the empty bitmap of the lower-only build whose asset did not open (line 450).
- Builder.FillReplacement: the resize factor is a positive integer. The output size `int(RESIZE_FACTOR * w)` is `resize * w`, and `(int)(x / RESIZE_FACTOR)` is `x / resize`.
- Resolver.Context.UnlockRect: a build is represented by its as-written plan and the handle it creates. For a lower-only build whose asset did not open, the source loads no bitmap and still fills the texture from it; the model caches the new handle and does not model those reads. `UnlockRect` does not run the pixel fill; `Builder.FillReplacement` models that separately.
- Resolver.Context.UnlockRect: texture creation and locking are assumed to succeed, as the source never checks them.
- `texture_count` is modelled only as a counter, and the `debugtype` strings and debug output are left out.
- Pixels.Sample: the tables hold no negative coordinate. A negative coordinate reads as out of bounds, whereas the source would index before the buffer.
- BitHash.HashAlgorithm1: the source reads the first table entry's pixel without a bounds check. The model reads it through `Sample`; the entry is (0, 0), so both agree on every non-empty image.
- The other ConsoleTesting functions are not modelled: `Copy_Unique_Left_Half`, `Copy_Unique_Left_Objects`, `Delete_Non_Unique`, `Analyze_Pixels`, `md5_Hash`, `Create_Hashmap`, `Get_Blank_Hashes`, `Test_Texture_Replacement` and `_tmain`.
- Fnv.Average: the float channel means are integer round-half-up (production) and truncation (ConsoleTesting), which match for these small exact sums. Division by zero with RGB on and an empty table is excluded by precondition.

## Findings

| source | as written | input that shows it | evidently intended | confidence | as-written member | corrected member |
|---|---|---|---|---|---|---|
| D3D9CallbackSC2/src/GlobalContext.cpp:450 | a lower asset that fails to open clears `use_upper` and leaves `use_lower` set | upper field "a" whose asset opens and lower field "b" whose asset does not: the lower half is used and the upper dropped; lower "b" alone: the build goes ahead with no asset | `use_lower = false`, as the upper case at line 441 does | high, not executed | Builder.PlanAsWritten, Builder.MissingLowerAssetExample, Resolver.MissingLowerAssetStillCached | Builder.PlanFor, Builder.PlanUsesExactlyTheOpenAssets |
| D3D9CallbackSC2/src/GlobalContext.cpp:141 | `DEBUG = iequals(param, "yes")` compares the key, which is "debug_mode" | the line `debug_mode=yes` leaves `DEBUG` false | compare the value with "yes" | high, not executed | Prefs.ApplyLineAsWritten, Prefs.LoadPrefs, Prefs.DebugNeverSetAsWritten | Prefs.ApplyLine, Prefs.SettingLine |
| D3D9CallbackSC2/src/GlobalContext.cpp:493 | the fallback row divides y by a fixed 4, while the column divides by `RESIZE_FACTOR` | `RESIZE_FACTOR` 8, a 1-row texture, output row 7: row 1-1-7/4 = -1 is read | divide y by `RESIZE_FACTOR` as well | medium, not executed | Builder.FallbackRowAsWritten, Builder.FallbackRowExample | Builder.FallbackRow, Builder.FallbackIsScaledOriginal |
| ConsoleTesting/ConsoleTesting.cpp:1389 | the first loop steps y over 1, 2, 3 (pixels) instead of 16, 32, 48 (block rows), unlike the later loops and the commented-out header on line 1390 | a 256x256 image white at (0, 0) and (0, 16) and black elsewhere: bit 62 differs from `Hash_Algorithm_slow` | step by `BLOCKSIZE`, computing `Hash_Algorithm_slow` | high, not executed | BitHash.HashAlgorithm1LessSlow, BitHash.LessSlowMissesBlockRows | BitHash.HashAlgorithm1LessSlowFixed, BitHash.SlowEqualsOld |
