// The string handling the catalog and preference loaders rely on: splitting
// a line on commas the way repeated `std::getline(stream, item, ',')` does,
// case-insensitive comparison (`boost::iequals`), the stream extraction
// behind `ToNumber<T>` for unsigned T, and `rfind`.

module Text {

  datatype Option<T> = None | Some(value: T)

  predicate NoComma(s: string)
  {
    forall i :: 0 <= i < |s| ==> s[i] != ','
  }

  /** The pieces of `s` between commas: always one more piece than there are commas. */
  function SplitAll(s: string): (pieces: seq<string>)
    ensures |pieces| >= 1
    decreases |s|
  {
    if s == [] then [[]]
    else
      var init := SplitAll(s[..|s| - 1]);
      var c := s[|s| - 1];
      if c == ',' then init + [[]]
      else init[..|init| - 1] + [init[|init| - 1] + [c]]
  }

  /**
   * The items repeated `std::getline(stream, item, ',')` extracts from `s`:
   * every piece between commas, except that an empty last piece is not
   * extracted (the read that would return it finds the end of the stream
   * with nothing consumed). So "" gives no item and "a," gives one.
   */
  function GetlineFields(s: string): seq<string>
  {
    var pieces := SplitAll(s);
    if pieces[|pieces| - 1] == [] then pieces[..|pieces| - 1] else pieces
  }

  /** The items written back out with a comma between each two. */
  function Join(items: seq<string>): string
    decreases |items|
  {
    if items == [] then []
    else if |items| == 1 then items[0]
    else Join(items[..|items| - 1]) + [','] + items[|items| - 1]
  }

  lemma {:induction false} SplitAllNoComma(x: string)
    requires NoComma(x)
    ensures SplitAll(x) == [x]
    decreases |x|
  {
    if x != [] {
      SplitAllNoComma(x[..|x| - 1]);
      assert x[..|x| - 1] + [x[|x| - 1]] == x;
    }
  }

  /** Appending a comma and a comma-free piece appends exactly that piece. */
  lemma {:induction false} SplitAllAppend(a: string, x: string)
    requires NoComma(x)
    ensures SplitAll(a + [','] + x) == SplitAll(a) + [x]
    decreases |x|
  {
    var s := a + [','] + x;
    if x == [] {
      assert s[..|s| - 1] == a;
    } else {
      var init := x[..|x| - 1];
      SplitAllAppend(a, init);
      assert s[..|s| - 1] == a + [','] + init;
      assert init + [x[|x| - 1]] == x;
    }
  }

  /** Splitting undoes joining, for comma-free items. */
  lemma {:induction false} SplitAllJoin(items: seq<string>)
    requires |items| >= 1
    requires forall i :: 0 <= i < |items| ==> NoComma(items[i])
    ensures SplitAll(Join(items)) == items
    decreases |items|
  {
    if |items| == 1 {
      SplitAllNoComma(items[0]);
    } else {
      var init := items[..|items| - 1];
      SplitAllJoin(init);
      SplitAllAppend(Join(init), items[|items| - 1]);
    }
  }

  /**
   * A catalog line written as comma-separated comma-free fields, the last
   * one non-empty, is read back field for field.
   */
  lemma GetlineFieldsJoin(items: seq<string>)
    requires forall i :: 0 <= i < |items| ==> NoComma(items[i])
    requires items == [] || items[|items| - 1] != []
    ensures GetlineFields(Join(items)) == items
  {
    if items != [] {
      SplitAllJoin(items);
    }
  }

  /** The pieces never contain a comma, and joining them gives the line back. */
  lemma SplitAllPieces(s: string)
    ensures forall i :: 0 <= i < |SplitAll(s)| ==> NoComma(SplitAll(s)[i])
    ensures Join(SplitAll(s)) == s
  {
    SplitAllNoCommas(s);
    JoinSplitAll(s);
  }

  lemma {:induction false} SplitAllNoCommas(s: string)
    ensures forall i :: 0 <= i < |SplitAll(s)| ==> NoComma(SplitAll(s)[i])
    decreases |s|
  {
    if s != [] {
      var a := s[..|s| - 1];
      var c := s[|s| - 1];
      var init := SplitAll(a);
      var pieces := SplitAll(s);
      SplitAllNoCommas(a);
      forall i | 0 <= i < |pieces|
        ensures NoComma(pieces[i])
      {
        if c == ',' {
          assert pieces == init + [[]];
          if i < |init| {
            assert pieces[i] == init[i];
          }
        } else {
          assert pieces == init[..|init| - 1] + [init[|init| - 1] + [c]];
          if i < |init| - 1 {
            assert pieces[i] == init[i];
          }
        }
      }
    }
  }

  lemma {:induction false} JoinSplitAll(s: string)
    ensures Join(SplitAll(s)) == s
    decreases |s|
  {
    if s != [] {
      var a := s[..|s| - 1];
      var c := s[|s| - 1];
      var init := SplitAll(a);
      JoinSplitAll(a);
      assert a + [c] == s;
      if c == ',' {
        JoinSnoc(init, []);
      } else {
        var n := |init|;
        var front, last := init[..n - 1], init[n - 1];
        assert init == front + [last];
        JoinSnoc(front, last);
        JoinSnoc(front, last + [c]);
      }
    }
  }

  /** Joining one more item adds a comma and the item, unless it is the first. */
  lemma JoinSnoc(items: seq<string>, x: string)
    ensures Join(items + [x]) == if items == [] then x else Join(items) + [','] + x
  {
    assert (items + [x])[..|items|] == items;
  }

  /** The extracted items contain no comma, and only the empty line yields no item. */
  lemma GetlineFieldsShape(s: string)
    ensures forall i :: 0 <= i < |GetlineFields(s)| ==> NoComma(GetlineFields(s)[i])
    ensures s == [] <==> GetlineFields(s) == []
  {
    SplitAllPieces(s);
  }

  /** The ASCII lower-case form of a character, what case-insensitive comparison folds to. */
  function LowerChar(c: char): char
  {
    if 'A' <= c <= 'Z' then (c as int + 32) as char else c
  }

  function Lower(s: string): (t: string)
    ensures |t| == |s|
  {
    seq(|s|, i requires 0 <= i < |s| => LowerChar(s[i]))
  }

  /** `boost::iequals`: same length and the same characters once case is folded. */
  predicate IEquals(a: string, b: string)
  {
    |a| == |b| && forall i :: 0 <= i < |a| ==> LowerChar(a[i]) == LowerChar(b[i])
  }

  /** Case-insensitive equality is equality of the lower-case forms, so it is an equivalence. */
  lemma IEqualsIsLowerEquality(a: string, b: string)
    ensures IEquals(a, b) <==> Lower(a) == Lower(b)
  {
    if IEquals(a, b) {
      assert forall i :: 0 <= i < |a| ==> Lower(a)[i] == Lower(b)[i];
    }
    if Lower(a) == Lower(b) {
      forall i | 0 <= i < |a|
        ensures LowerChar(a[i]) == LowerChar(b[i])
      {
        assert Lower(a)[i] == Lower(b)[i];
      }
    }
  }

  /** `rfind(c)`: the position of the last occurrence of `c`, or none. */
  function LastIndexOf(s: string, c: char): (r: Option<nat>)
    ensures r.Some? ==> r.value < |s| && s[r.value] == c && forall j :: r.value < j < |s| ==> s[j] != c
    ensures r.None? ==> forall j :: 0 <= j < |s| ==> s[j] != c
    decreases |s|
  {
    if s == [] then None
    else if s[|s| - 1] == c then Some(|s| - 1)
    else LastIndexOf(s[..|s| - 1], c)
  }

  predicate IsDigit(c: char)
  {
    '0' <= c <= '9'
  }

  predicate AllDigits(s: string)
  {
    forall i :: 0 <= i < |s| ==> IsDigit(s[i])
  }

  predicate IsSpace(c: char)
  {
    c == ' ' || c == '\t' || c == '\n' || c == '\r' || c == '\U{B}' || c == '\U{C}'
  }

  /** What `>>` skips before a number: leading white space. */
  function SkipSpace(s: string): (t: string)
    ensures |t| <= |s| && t == s[|s| - |t|..]
    ensures t == [] || !IsSpace(t[0])
    decreases |s|
  {
    if s != [] && IsSpace(s[0]) then SkipSpace(s[1..]) else s
  }

  /** The longest run of digits at the start of `s`. */
  function DigitPrefix(s: string): (p: string)
    ensures |p| <= |s| && p == s[..|p|] && AllDigits(p)
    ensures |p| < |s| ==> !IsDigit(s[|p|])
    decreases |s|
  {
    if s == [] || !IsDigit(s[0]) then [] else [s[0]] + DigitPrefix(s[1..])
  }

  /** The value of a decimal numeral, most significant digit first. */
  function DecimalValue(digits: string): nat
    requires AllDigits(digits)
    decreases |digits|
  {
    if digits == [] then 0
    else 10 * DecimalValue(digits[..|digits| - 1]) + (digits[|digits| - 1] as int - '0' as int)
  }

  /**
   * `ToNumber<T>` for an unsigned T with `limit` values: white space is
   * skipped and the leading decimal digits are read; a value past the type's
   * range gives its largest value, and text with no leading digit gives 0.
   */
  function ParseUnsigned(s: string, limit: nat): (n: nat)
    requires limit > 0
    ensures n < limit
    ensures DigitPrefix(SkipSpace(s)) == [] ==> n == 0
  {
    var v := DecimalValue(DigitPrefix(SkipSpace(s)));
    if v < limit then v else limit - 1
  }

  /** The decimal numeral of `n`, as `operator<<` writes an unsigned value. */
  function ShowDecimal(n: nat): (s: string)
    ensures |s| >= 1 && AllDigits(s)
  {
    if n < 10 then [('0' as int + n) as char]
    else ShowDecimal(n / 10) + [('0' as int + n % 10) as char]
  }

  lemma {:induction false} DecimalValueShow(n: nat)
    ensures DecimalValue(ShowDecimal(n)) == n
  {
    if n >= 10 {
      DecimalValueShow(n / 10);
      var s := ShowDecimal(n);
      assert s[..|s| - 1] == ShowDecimal(n / 10);
    }
  }

  /** Reading back a written number gives the number, for every value the type holds. */
  lemma ParseShowDecimal(n: nat, limit: nat)
    requires n < limit
    ensures ParseUnsigned(ShowDecimal(n), limit) == n
  {
    var s := ShowDecimal(n);
    assert SkipSpace(s) == s by {
      assert !IsSpace(s[0]);
    }
    assert DigitPrefix(s) == s;
    DecimalValueShow(n);
  }
}
