// Building a replacement texture: where a field name's asset lives, which
// assets a build uses, and the pixel-by-pixel fill of the new texture from
// the decoded assets and, for a half nobody matched, the original texture.

module Builder {
  import opened Word
  import opened Text
  import opened Pixels

  /** `p / c` on a path: an empty component adds nothing. */
  function Append(p: seq<string>, c: string): (r: seq<string>)
    ensures r == if c == [] then p else p + [c]
  {
    if c == [] then p else p + [c]
  }

  /** `name.substr(0, name.rfind("_"))`: the name up to its last '_', all of it when it has none. */
  function Stem(name: string): (s: string)
    ensures |s| <= |name| && s == name[..|s|]
    ensures '_' !in name ==> s == name
  {
    match LastIndexOf(name, '_')
    case None => name
    case Some(k) => name[..k]
  }

  /** `name.substr(0, 2)`. */
  function Prefix2(name: string): (s: string)
    ensures |s| <= |name| && s == name[..|s|] && |s| == if |name| < 2 then |name| else 2
  {
    if |name| < 2 then name else name[..2]
  }

  /**
   * The asset file of a field name below the textures directory, as path
   * components: the folder of its first two characters, the folder of its
   * stem, and the file `name.png`.
   */
  function AssetPath(name: string): seq<string>
  {
    Append(Append([], Prefix2(name)), Stem(name)) + [name + ".png"]
  }

  /** The file is `name.png`, and the folders are the name's first two characters and its stem. */
  lemma AssetPathShape(name: string)
    requires name != []
    ensures var p := AssetPath(name);
      && p[|p| - 1] == name + ".png"
      && p[0] == Prefix2(name)
      && (Stem(name) != [] ==> p == [Prefix2(name), Stem(name), name + ".png"])
      && (Stem(name) == [] ==> p == [Prefix2(name), name + ".png"])
  {
  }

  /** Different field names never share an asset file. */
  lemma AssetPathInjective(a: string, b: string)
    requires AssetPath(a) == AssetPath(b)
    ensures a == b
  {
    var pa, pb := AssetPath(a), AssetPath(b);
    assert pa[|pa| - 1] == a + ".png" && pb[|pb| - 1] == b + ".png";
    assert |a| == |b|;
    assert a == (a + ".png")[..|a|] && b == (b + ".png")[..|b|];
  }

  /** The field names `create_newhandle` is given; `None` is a null pointer. */
  datatype Request = Request(combined: Option<string>, upper: Option<string>, lower: Option<string>)

  /** A non-null, non-empty field name. */
  predicate Given(f: Option<string>)
  {
    f.Some? && f.value != []
  }

  /** Which asset files can be opened. */
  type Assets = seq<string> -> bool

  /** The bitmaps a build uses: the whole texture, or its upper and lower objects. */
  datatype Plan = Plan(useCombined: bool, useUpper: bool, useLower: bool)

  predicate Opens(assets: Assets, f: Option<string>)
  {
    Given(f) && assets(AssetPath(f.value))
  }

  /**
   * The decision of `create_newhandle` as written: when the lower asset
   * cannot be opened it clears the upper flag and keeps the lower one. No
   * plan means the build returns null.
   */
  function PlanAsWritten(req: Request, assets: Assets): Option<Plan>
  {
    if Given(req.combined) then
      if Opens(assets, req.combined) then Some(Plan(true, false, false)) else None
    else
      var lower := Given(req.lower);
      var upper := Opens(assets, req.upper) && (lower ==> Opens(assets, req.lower));
      if !upper && !lower then None else Some(Plan(false, upper, lower))
  }

  /**
   * The decision as intended: a combined name is used alone and its asset
   * must open; otherwise each half is used exactly when its name is given and
   * its asset opens, and a build with neither half returns null.
   */
  function PlanFor(req: Request, assets: Assets): Option<Plan>
  {
    if Given(req.combined) then
      if Opens(assets, req.combined) then Some(Plan(true, false, false)) else None
    else
      var upper := Opens(assets, req.upper);
      var lower := Opens(assets, req.lower);
      if !upper && !lower then None else Some(Plan(false, upper, lower))
  }

  /**
   * A planned build reads only assets that open, and leaves out no requested
   * half whose asset opens; a combined name overrides both halves.
   */
  lemma PlanUsesExactlyTheOpenAssets(req: Request, assets: Assets)
    ensures var r := PlanFor(req, assets);
      && (r.Some? && r.value.useCombined <==> Opens(assets, req.combined))
      && (r.Some? && r.value.useUpper <==> !Given(req.combined) && Opens(assets, req.upper))
      && (r.Some? && r.value.useLower <==> !Given(req.combined) && Opens(assets, req.lower))
      && (r.None? <==> if Given(req.combined) then !Opens(assets, req.combined)
                       else !Opens(assets, req.upper) && !Opens(assets, req.lower))
  {
  }

  /** The two decisions agree whenever the lower asset is not the reason a half is dropped. */
  lemma PlansAgreeWhenLowerOpens(req: Request, assets: Assets)
    requires Given(req.lower) ==> Opens(assets, req.lower)
    ensures PlanAsWritten(req, assets) == PlanFor(req, assets)
  {
  }

  /**
   * The inputs that show it: a lower-only build whose asset is missing goes
   * ahead as written, with no bitmap to read; and with an upper asset that
   * opens and a lower one that does not, the upper half is dropped instead
   * of the lower.
   */
  lemma MissingLowerAssetExample()
    ensures var onlyA: Assets := p => p == AssetPath("a");
      && PlanAsWritten(Request(None, None, Some("b")), onlyA) == Some(Plan(false, false, true))
      && PlanFor(Request(None, None, Some("b")), onlyA) == None
      && PlanAsWritten(Request(None, Some("a"), Some("b")), onlyA) == Some(Plan(false, false, true))
      && PlanFor(Request(None, Some("a"), Some("b")), onlyA) == Some(Plan(false, true, false))
  {
    var onlyA: Assets := p => p == AssetPath("a");
    if AssetPath("b") == AssetPath("a") {
      AssetPathInjective("b", "a");
    }
    assert !onlyA(AssetPath("b"));
  }

  /** `RGBColor(Color.b, Color.g, Color.r, Color.a)`: red and blue change places. */
  function SwapRB(c: Color): (r: Color)
    ensures r.r == c.b && r.g == c.g && r.b == c.r && r.a == c.a
  {
    Color(c.b, c.g, c.r, c.a)
  }

  /** The decoded bitmaps; each is read only when the plan uses it. */
  datatype Bitmaps = Bitmaps(combined: Image, upper: Image, lower: Image)

  /**
   * The row of the original texture an output row falls back to, as
   * intended: the output is the original scaled by `resize` and flipped, so
   * row y shows original row h - 1 - y / resize.
   */
  function FallbackRow(h: nat, resize: nat, y: nat): (r: nat)
    requires resize > 0 && y < resize * h
    ensures r < h && r == h - 1 - y / resize
  {
    DivBelow(y, resize, h);
    h - 1 - y / resize
  }

  /** The fallback row as written, with the scale factor fixed at 4. */
  function FallbackRowAsWritten(h: nat, y: nat): int
  {
    h - 1 - y / 4
  }

  /** The written row is the intended one at the default factor 4, and falls outside the texture at factor 8. */
  lemma FallbackRowExample()
    ensures forall h: nat, y: nat :: y < 4 * h ==> FallbackRowAsWritten(h, y) == FallbackRow(h, 4, y)
    ensures FallbackRowAsWritten(1, 7) == -1 && FallbackRow(1, 8, 7) == 0
  {
  }

  /**
   * The row of the upper bitmap an output row reads: flipped, and wrapped by
   * the bitmap's height when the bitmap is only half as tall as the output.
   */
  function UpperRow(upperHeight: nat, y: nat): (r: nat)
    requires y < 2 * upperHeight
    ensures r < upperHeight
    ensures r == (if y < upperHeight then upperHeight - 1 - y else 2 * upperHeight - 1 - y)
  {
    var row := upperHeight - 1 - y;
    if row < 0 then row + upperHeight else row
  }

  /** The output is `resize` times the size of the texture it replaces. */
  function OutHeight(resize: nat, orig: Image): nat { resize * orig.height }
  function OutWidth(resize: nat, orig: Image): nat { resize * orig.width }

  /** Every bitmap row and column the fill reads exists. */
  predicate Fits(plan: Plan, resize: nat, orig: Image, bmps: Bitmaps)
  {
    var height, width := OutHeight(resize, orig), OutWidth(resize, orig);
    && resize > 0
    && (plan.useCombined ==> bmps.combined.height >= height && bmps.combined.width >= width)
    && (!plan.useCombined && plan.useUpper ==> 2 * bmps.upper.height >= height && bmps.upper.width >= width)
    && (!plan.useCombined && plan.useLower ==> bmps.lower.height >= height / 2 && bmps.lower.width >= width)
  }

  /** The colour the fill writes at column x of output row y. */
  function OutputPixel(plan: Plan, resize: nat, orig: Image, bmps: Bitmaps, x: nat, y: nat): Color
    requires Fits(plan, resize, orig, bmps)
    requires x < OutWidth(resize, orig) && y < OutHeight(resize, orig)
  {
    var height := OutHeight(resize, orig);
    var fallback := orig.pixel(x / resize, FallbackRow(orig.height, resize, y));
    SwapRB(
      if plan.useCombined then bmps.combined.pixel(x, height - y - 1)
      else if y < height / 2 then
        (if plan.useLower then bmps.lower.pixel(x, bmps.lower.height - 1 - y) else fallback)
      else
        (if plan.useUpper then bmps.upper.pixel(x, UpperRow(bmps.upper.height, y)) else fallback))
  }

  /**
   * The pixel loop of `create_newhandle`, writing the locked buffer of the
   * new texture row by row.
   */
  method FillReplacement(out: array2<Color>, plan: Plan, resize: nat, orig: Image, bmps: Bitmaps)
    requires Fits(plan, resize, orig, bmps)
    requires out.Length0 == OutHeight(resize, orig) && out.Length1 == OutWidth(resize, orig)
    modifies out
    ensures forall y, x :: 0 <= y < out.Length0 && 0 <= x < out.Length1 ==>
      out[y, x] == OutputPixel(plan, resize, orig, bmps, x, y)
  {
    var height, width := out.Length0, out.Length1;
    var y := 0;
    while y < height
      invariant 0 <= y <= height
      invariant forall i, j :: 0 <= i < y && 0 <= j < width ==> out[i, j] == OutputPixel(plan, resize, orig, bmps, j, i)
    {
      var x := 0;
      while x < width
        invariant 0 <= x <= width
        invariant forall i, j :: 0 <= i < y && 0 <= j < width ==> out[i, j] == OutputPixel(plan, resize, orig, bmps, j, i)
        invariant forall j :: 0 <= j < x ==> out[y, j] == OutputPixel(plan, resize, orig, bmps, j, y)
      {
        var color: Color;
        if plan.useCombined {
          color := bmps.combined.pixel(x, height - y - 1);
        } else if y < height / 2 {
          if plan.useLower {
            color := bmps.lower.pixel(x, bmps.lower.height - 1 - y);
          } else {
            color := orig.pixel(x / resize, FallbackRow(orig.height, resize, y));
          }
        } else {
          if plan.useUpper {
            var upperY := bmps.upper.height - 1 - y;
            if upperY < 0 {
              upperY := upperY + bmps.upper.height;
            }
            color := bmps.upper.pixel(x, upperY);
          } else {
            color := orig.pixel(x / resize, FallbackRow(orig.height, resize, y));
          }
        }
        out[y, x] := SwapRB(color);
        x := x + 1;
      }
      y := y + 1;
    }
  }

  /**
   * Where no asset covers a half, each original pixel becomes a
   * `resize`-by-`resize` block of the output, rows flipped.
   */
  lemma FallbackIsScaledOriginal(plan: Plan, resize: nat, orig: Image, bmps: Bitmaps, c: nat, r: nat, i: nat, j: nat)
    requires Fits(plan, resize, orig, bmps) && !plan.useCombined
    requires c < orig.width && r < orig.height && i < resize && j < resize
    requires resize * r + i < OutHeight(resize, orig) / 2 ==> !plan.useLower
    requires resize * r + i >= OutHeight(resize, orig) / 2 ==> !plan.useUpper
    ensures resize * c + j < OutWidth(resize, orig) && resize * r + i < OutHeight(resize, orig)
    ensures OutputPixel(plan, resize, orig, bmps, resize * c + j, resize * r + i) == SwapRB(orig.pixel(c, orig.height - 1 - r))
  {
    BlockIndex(resize, c, j, orig.width);
    BlockIndex(resize, r, i, orig.height);
  }

  /** Offset j of block c lies below `resize * n` and divides back to c. */
  lemma BlockIndex(resize: nat, c: nat, j: nat, n: nat)
    requires c < n && j < resize
    ensures resize * c + j < resize * n && (resize * c + j) / resize == c
  {
    MulMonotone(resize, c + 1, n);
    DivUnique(resize * c + j, resize, c, j);
  }

  /**
   * A full-height upper asset fills the upper half exactly as a combined
   * build from the same asset would.
   */
  lemma FullUpperMatchesCombined(plan: Plan, resize: nat, orig: Image, bmps: Bitmaps, x: nat, y: nat)
    requires Fits(plan, resize, orig, bmps) && !plan.useCombined && plan.useUpper
    requires bmps.upper.height == OutHeight(resize, orig)
    requires x < OutWidth(resize, orig) && OutHeight(resize, orig) / 2 <= y < OutHeight(resize, orig)
    ensures Fits(Plan(true, false, false), resize, orig, bmps.(combined := bmps.upper))
    ensures OutputPixel(plan, resize, orig, bmps, x, y)
         == OutputPixel(Plan(true, false, false), resize, orig, bmps.(combined := bmps.upper), x, y)
  {
  }

  /**
   * A lower asset as tall as the output fills the lower half exactly as a
   * combined build from the same asset would.
   */
  lemma FullLowerMatchesCombined(plan: Plan, resize: nat, orig: Image, bmps: Bitmaps, x: nat, y: nat)
    requires Fits(plan, resize, orig, bmps) && !plan.useCombined && plan.useLower
    requires bmps.lower.height == OutHeight(resize, orig)
    requires x < OutWidth(resize, orig) && y < OutHeight(resize, orig) / 2
    ensures Fits(Plan(true, false, false), resize, orig, bmps.(combined := bmps.lower))
    ensures OutputPixel(plan, resize, orig, bmps, x, y)
         == OutputPixel(Plan(true, false, false), resize, orig, bmps.(combined := bmps.lower), x, y)
  {
  }
}
