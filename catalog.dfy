// The fingerprint catalog: hash-map files whose lines read
// "<field_name>,<hash_combined>{,<hash_upper>,<hash_lower>}", loaded into a
// map from fingerprint to the field names recorded for it.

module Catalog {
  import opened Word
  import opened Text

  /** One catalog line as read: malformed, or a field name and the fingerprints it is recorded under. */
  datatype CatalogLine = Malformed | Entry(field: string, hashes: seq<U64>)

  /** `ToNumber<uint64>`. */
  function ParseHash(s: string): U64
  {
    ParseUnsigned(s, Modulus)
  }

  /**
   * A line is accepted only with exactly 2 or 4 comma-separated items: the
   * field name, the combined hash, and optionally the upper and lower hashes.
   */
  function ParseItems(items: seq<string>): (e: CatalogLine)
    ensures e.Entry? <==> |items| == 2 || |items| == 4
    ensures e.Entry? ==> e.field == items[0] && |e.hashes| == |items| - 1
    ensures e.Entry? ==> e.hashes[0] == ParseHash(items[1])
    ensures |items| == 4 ==> e.hashes[1] == ParseHash(items[2]) && e.hashes[2] == ParseHash(items[3])
  {
    if |items| == 2 then Entry(items[0], [ParseHash(items[1])])
    else if |items| == 4 then Entry(items[0], [ParseHash(items[1]), ParseHash(items[2]), ParseHash(items[3])])
    else Malformed
  }

  function ParseLine(line: string): CatalogLine
  {
    ParseItems(GetlineFields(line))
  }

  /** The items of a written line: the name, then the decimal numerals of the hashes. */
  function FormatItems(field: string, hashes: seq<U64>): (items: seq<string>)
    ensures |items| == |hashes| + 1 && items[0] == field
    ensures forall i :: 0 <= i < |hashes| ==> items[i + 1] == ShowDecimal(hashes[i])
  {
    [field] + seq(|hashes|, i requires 0 <= i < |hashes| => ShowDecimal(hashes[i]))
  }

  /** A catalog line as the hash-map tools write it: the field name, then each hash in decimal. */
  function FormatLine(field: string, hashes: seq<U64>): string
  {
    Join(FormatItems(field, hashes))
  }

  lemma SplitFormatLine(field: string, hashes: seq<U64>)
    requires NoComma(field) && hashes != []
    ensures GetlineFields(FormatLine(field, hashes)) == FormatItems(field, hashes)
  {
    var items := FormatItems(field, hashes);
    forall i | 0 <= i < |items|
      ensures NoComma(items[i])
    {
      if i > 0 {
        assert AllDigits(items[i]);
      }
    }
    GetlineFieldsJoin(items);
  }

  lemma ParseFormatItems(field: string, hashes: seq<U64>)
    requires |hashes| == 1 || |hashes| == 3
    ensures ParseItems(FormatItems(field, hashes)) == Entry(field, hashes)
  {
    var items := FormatItems(field, hashes);
    var e := ParseItems(items);
    forall i | 0 <= i < |hashes|
      ensures e.hashes[i] == hashes[i]
    {
      assert ParseHash(items[i + 1]) == hashes[i] by {
        ParseShowDecimal(hashes[i], Modulus);
      }
      assert i == 0 || i == 1 || i == 2;
    }
    assert e.hashes == hashes;
  }

  /**
   * Reading a written line gives back its field name and hashes, for any
   * comma-free name and one or three hashes; an empty line is malformed.
   */
  lemma ParseFormatLine(field: string, hashes: seq<U64>)
    requires NoComma(field) && (|hashes| == 1 || |hashes| == 3)
    ensures ParseLine(FormatLine(field, hashes)) == Entry(field, hashes)
    ensures ParseLine("") == Malformed
  {
    SplitFormatLine(field, hashes);
    ParseFormatItems(field, hashes);
    GetlineFieldsShape("");
  }

  /** The field names recorded per fingerprint, in the order they were first inserted. */
  type Names = map<U64, seq<string>>

  predicate NoDuplicates(s: seq<string>)
  {
    forall i, j :: 0 <= i < j < |s| ==> s[i] != s[j]
  }

  /** Every recorded fingerprint has at least one name, each recorded once. */
  predicate WellFormed(m: Names)
  {
    forall h :: h in m ==> m[h] != [] && NoDuplicates(m[h])
  }

  /** `fieldmap->insert(hash, field)`: the name joins the fingerprint's set of names. */
  function AddName(m: Names, h: U64, field: string): (r: Names)
    ensures r.Keys == m.Keys + {h}
    ensures field in r[h] && (h in m ==> forall n :: n in m[h] ==> n in r[h])
    ensures forall n :: n in r[h] ==> n == field || (h in m && n in m[h])
    ensures forall k :: k in m && k != h ==> r[k] == m[k]
    ensures h in m && m[h] != [] ==> r[h][0] == m[h][0]
    ensures WellFormed(m) ==> WellFormed(r)
  {
    if h in m then
      (if field in m[h] then m else m[h := m[h] + [field]])
    else m[h := [field]]
  }

  /** The catalog a set of hash-map files builds. */
  class FieldMap {
    var names: Names

    predicate Valid()
      reads this
    {
      WellFormed(names)
    }

    constructor()
      ensures Valid() && names == map[]
    {
      names := map[];
    }

    method Insert(h: U64, field: string)
      requires Valid()
      modifies this
      ensures Valid() && names == AddName(old(names), h, field)
    {
      names := AddName(names, h, field);
    }
  }

  /**
   * `get_first_field` (and the first element `get_fields` yields): a name
   * recorded for `h`, if any. The source keeps the names in an unordered
   * set; here the first one inserted stands for the set's first element.
   */
  function FirstField(m: Names, h: U64): (r: Option<string>)
    ensures r.Some? ==> h in m && r.value in m[h]
    ensures WellFormed(m) ==> (r.Some? <==> h in m)
  {
    if h in m && m[h] != [] then Some(m[h][0]) else None
  }

  /** The names one accepted line adds: every hash on it gets the field name. */
  function InsertAll(m: Names, hashes: seq<U64>, field: string): Names
    decreases |hashes|
  {
    if hashes == [] then m else InsertAll(AddName(m, hashes[0], field), hashes[1..], field)
  }

  /** Every line of a file, read. */
  function ParseAll(lines: seq<string>): (es: seq<CatalogLine>)
    ensures |es| == |lines| && forall i :: 0 <= i < |lines| ==> es[i] == ParseLine(lines[i])
  {
    seq(|lines|, i requires 0 <= i < |lines| => ParseLine(lines[i]))
  }

  /**
   * Loading read lines in order into `m`: the catalog reached and whether
   * every line was accepted. A malformed line ends the load where it stands.
   */
  function LoadEntries(m: Names, es: seq<CatalogLine>): (Names, bool)
    decreases |es|
  {
    if es == [] then (m, true)
    else match es[0]
      case Malformed => (m, false)
      case Entry(field, hashes) => LoadEntries(InsertAll(m, hashes, field), es[1..])
  }

  /** Going on with the remaining files after a file's lines, unless the load was cut short. */
  function Resume(r: (Names, bool), files: seq<seq<string>>): (Names, bool)
    decreases |files|, 1
  {
    if r.1 then LoadFiles(r.0, files) else r
  }

  /** Loading whole files in order: a malformed line in any file ends the entire load. */
  function LoadFiles(m: Names, files: seq<seq<string>>): (Names, bool)
    decreases |files|, 0
  {
    if files == [] then (m, true) else Resume(LoadEntries(m, ParseAll(files[0])), files[1..])
  }

  /**
   * Splitting one line into its items with `std::getline(stream, item, ',')`
   * until the stream is exhausted.
   */
  method SplitOnCommas(line: string) returns (items: seq<string>)
    ensures items == GetlineFields(line)
  {
    items := [];
    var item := "";
    var i := 0;
    while i < |line|
      invariant 0 <= i <= |line|
      invariant SplitAll(line[..i]) == items + [item]
    {
      assert line[..i + 1][..i] == line[..i];
      if line[i] == ',' {
        items := items + [item];
        item := "";
      } else {
        item := item + [line[i]];
      }
      i := i + 1;
    }
    assert line[..i] == line;
    if item != "" {
      items := items + [item];
    }
  }

  /**
   * The per-line work of `load_fieldmaps`: the line is split and checked, and
   * an accepted line's name inserted under the combined hash and, on a 4-item
   * line, under the upper and lower hashes. A malformed line inserts nothing.
   */
  method LoadLine(fieldmap: FieldMap, line: string) returns (accepted: bool)
    requires fieldmap.Valid()
    modifies fieldmap
    ensures fieldmap.Valid()
    ensures accepted == ParseLine(line).Entry?
    ensures accepted ==> fieldmap.names == InsertAll(old(fieldmap.names), ParseLine(line).hashes, ParseLine(line).field)
    ensures !accepted ==> fieldmap.names == old(fieldmap.names)
  {
    var items := SplitOnCommas(line);
    if |items| != 2 && |items| != 4 {
      return false;
    }
    ghost var before := fieldmap.names;
    var field := items[0];
    var hashCombined := ParseHash(items[1]);
    fieldmap.Insert(hashCombined, field);
    if |items| > 2 {
      var hashUpper := ParseHash(items[2]);
      fieldmap.Insert(hashUpper, field);
      var hashLower := ParseHash(items[3]);
      fieldmap.Insert(hashLower, field);
      InsertAllSteps(before, hashCombined, hashUpper, hashLower, field);
    } else {
      InsertAllSteps(before, hashCombined, 0, 0, field);
    }
    return true;
  }

  lemma InsertAllSteps(m: Names, a: U64, b: U64, c: U64, field: string)
    ensures InsertAll(m, [a], field) == AddName(m, a, field)
    ensures InsertAll(m, [a, b, c], field) == AddName(AddName(AddName(m, a, field), b, field), c, field)
  {
    assert [a][1..] == [];
    var m1 := AddName(m, a, field);
    var m2 := AddName(m1, b, field);
    assert [a, b, c][1..] == [b, c] && [b, c][1..] == [c] && [c][1..] == [];
    assert InsertAll(m, [a, b, c], field) == InsertAll(m1, [b, c], field);
    assert InsertAll(m1, [b, c], field) == InsertAll(m2, [c], field);
    assert InsertAll(m2, [c], field) == InsertAll(AddName(m2, c, field), [], field);
  }

  /**
   * `load_fieldmaps` over the catalog files in the order they are visited,
   * line by line; a malformed line returns from the whole load at once,
   * keeping what was inserted before it.
   */
  method LoadFieldmaps(fieldmap: FieldMap, files: seq<seq<string>>) returns (complete: bool)
    requires fieldmap.Valid()
    modifies fieldmap
    ensures fieldmap.Valid()
    ensures (fieldmap.names, complete) == LoadFiles(old(fieldmap.names), files)
  {
    var f := 0;
    while f < |files|
      invariant 0 <= f <= |files| && fieldmap.Valid()
      invariant LoadFiles(fieldmap.names, files[f..]) == LoadFiles(old(fieldmap.names), files)
    {
      var lines := files[f];
      ghost var es := ParseAll(lines);
      var l := 0;
      while l < |lines|
        invariant 0 <= l <= |lines| && fieldmap.Valid()
        invariant Resume(LoadEntries(fieldmap.names, es[l..]), files[f + 1..]) == LoadFiles(old(fieldmap.names), files)
      {
        var accepted := LoadLine(fieldmap, lines[l]);
        if !accepted {
          return false;
        }
        assert es[l..][1..] == es[l + 1..];
        l := l + 1;
      }
      assert files[f..][1..] == files[f + 1..];
      f := f + 1;
    }
    return true;
  }

  /** An accepted line records its name under every hash on it. */
  lemma {:induction false} InsertAllRecords(m: Names, hashes: seq<U64>, field: string)
    ensures forall i :: 0 <= i < |hashes| ==> hashes[i] in InsertAll(m, hashes, field)
                                              && field in InsertAll(m, hashes, field)[hashes[i]]
    ensures forall h, n :: h in m && n in m[h] ==> h in InsertAll(m, hashes, field) && n in InsertAll(m, hashes, field)[h]
    decreases |hashes|
  {
    if hashes != [] {
      InsertAllRecords(AddName(m, hashes[0], field), hashes[1..], field);
      forall i | 0 < i < |hashes|
        ensures hashes[i] == hashes[1..][i - 1]
      {
      }
    }
  }

  /** Loading never forgets a name recorded before, whether or not it completes. */
  lemma {:induction false} LoadKeeps(m: Names, es: seq<CatalogLine>)
    ensures forall h, n :: h in m && n in m[h] ==> h in LoadEntries(m, es).0 && n in LoadEntries(m, es).0[h]
    decreases |es|
  {
    if es != [] {
      match es[0]
      case Malformed =>
      case Entry(field, hashes) =>
        InsertAllRecords(m, hashes, field);
        LoadKeeps(InsertAll(m, hashes, field), es[1..]);
    }
  }

  /** A load completes exactly when every line is well formed. */
  lemma {:induction false} LoadCompleteIff(m: Names, es: seq<CatalogLine>)
    ensures LoadEntries(m, es).1 <==> forall i :: 0 <= i < |es| ==> es[i].Entry?
    decreases |es|
  {
    if es != [] {
      match es[0]
      case Malformed =>
      case Entry(field, hashes) =>
        LoadCompleteIff(InsertAll(m, hashes, field), es[1..]);
        assert forall i :: 0 < i < |es| ==> es[i] == es[1..][i - 1];
    }
  }

  /** Lines after a malformed one are never read: the load stops at that line, incomplete. */
  lemma {:induction false} MalformedLineStopsLoad(m: Names, es: seq<CatalogLine>, k: nat)
    requires k < |es| && es[k].Malformed?
    ensures LoadEntries(m, es) == LoadEntries(m, es[..k + 1])
    ensures !LoadEntries(m, es).1
    decreases k
  {
    var prefix := es[..k + 1];
    assert prefix[0] == es[0];
    if k > 0 {
      match es[0]
      case Malformed =>
      case Entry(field, hashes) =>
        assert es[1..][k - 1] == es[k];
        MalformedLineStopsLoad(InsertAll(m, hashes, field), es[1..], k - 1);
        assert prefix[1..] == es[1..][..k];
    }
  }

  /** A file with a malformed line ends the load of all files: later files are not read. */
  lemma MalformedFileStopsLoad(m: Names, files: seq<seq<string>>)
    requires files != [] && !LoadEntries(m, ParseAll(files[0])).1
    ensures LoadFiles(m, files) == LoadEntries(m, ParseAll(files[0]))
  {
  }
}
