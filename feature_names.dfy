/**
 * The display name of a measurement key:
 * `key.replace(/([A-Z])/g, ' $1').toLowerCase().replace(/^./, str => str.toUpperCase())`.
 * A space goes before every capital, everything is lower-cased, then the first character is
 * upper-cased, so `worstSmoothness` becomes "Worst smoothness" (only the first word is capitalised).
 * Case conversion is modelled on ASCII letters, which is all the keys contain.
 */
module FeatureNames {
  import opened Types

  predicate IsUpper(c: char) {
    'A' <= c <= 'Z'
  }

  function ToLowerChar(c: char): char {
    if IsUpper(c) then (c as int + 32) as char else c
  }

  function ToUpperChar(c: char): char {
    if 'a' <= c <= 'z' then (c as int - 32) as char else c
  }

  /** `replace(/([A-Z])/g, ' $1')` */
  function SpaceBeforeCapitals(s: string): string {
    if s == [] then []
    else (if IsUpper(s[0]) then [' ', s[0]] else [s[0]]) + SpaceBeforeCapitals(s[1..])
  }

  /** `toLowerCase()` */
  function ToLower(s: string): (t: string)
    ensures |t| == |s|
  {
    if s == [] then [] else [ToLowerChar(s[0])] + ToLower(s[1..])
  }

  /** The characters `.` does not match. */
  predicate IsLineTerminator(c: char) {
    c == '\n' || c == '\r' || c == '\U{2028}' || c == '\U{2029}'
  }

  /** `replace(/^./, str => str.toUpperCase())` */
  function CapitalizeFirst(s: string): (t: string)
    ensures |t| == |s| && (s != [] ==> t[1..] == s[1..])
    ensures s != [] ==> t[0] == if IsLineTerminator(s[0]) then s[0] else ToUpperChar(s[0])
  {
    if s == [] || IsLineTerminator(s[0]) then s else [ToUpperChar(s[0])] + s[1..]
  }

  /** The label a feature is shown under. */
  function DisplayName(key: string): string {
    CapitalizeFirst(ToLower(SpaceBeforeCapitals(key)))
  }

  function RemoveSpaces(s: string): string {
    if s == [] then [] else (if s[0] == ' ' then [] else [s[0]]) + RemoveSpaces(s[1..])
  }

  function CountUpper(s: string): nat {
    if s == [] then 0 else (if IsUpper(s[0]) then 1 else 0) + CountUpper(s[1..])
  }

  predicate NoUpper(s: string) {
    forall i :: 0 <= i < |s| ==> !IsUpper(s[i])
  }

  lemma {:induction false} ToLowerAppend(a: string, b: string)
    ensures ToLower(a + b) == ToLower(a) + ToLower(b)
  {
    if a == [] {
      assert a + b == b;
    } else {
      var h := [ToLowerChar(a[0])];
      assert (a + b)[0] == a[0] && (a + b)[1..] == a[1..] + b;
      calc {
        ToLower(a + b);
        h + ToLower(a[1..] + b);
        { ToLowerAppend(a[1..], b); }
        h + (ToLower(a[1..]) + ToLower(b));
        (h + ToLower(a[1..])) + ToLower(b);
      }
    }
  }

  lemma {:induction false} ToLowerIdempotent(s: string)
    ensures ToLower(ToLower(s)) == ToLower(s)
  {
    if s != [] {
      ToLowerIdempotent(s[1..]);
      var t := ToLower(s);
      assert t[0] == ToLowerChar(s[0]) && t[1..] == ToLower(s[1..]);
    }
  }

  lemma {:induction false} RemoveSpacesAppend(a: string, b: string)
    ensures RemoveSpaces(a + b) == RemoveSpaces(a) + RemoveSpaces(b)
  {
    if a == [] {
      assert a + b == b;
    } else {
      var h := (if a[0] == ' ' then [] else [a[0]]);
      assert (a + b)[0] == a[0] && (a + b)[1..] == a[1..] + b;
      calc {
        RemoveSpaces(a + b);
        h + RemoveSpaces(a[1..] + b);
        { RemoveSpacesAppend(a[1..], b); }
        h + (RemoveSpaces(a[1..]) + RemoveSpaces(b));
        (h + RemoveSpaces(a[1..])) + RemoveSpaces(b);
      }
    }
  }

  lemma {:induction false} SpaceBeforeCapitalsAppend(a: string, b: string)
    ensures SpaceBeforeCapitals(a + b) == SpaceBeforeCapitals(a) + SpaceBeforeCapitals(b)
  {
    if a == [] {
      assert a + b == b;
    } else {
      var h := (if IsUpper(a[0]) then [' ', a[0]] else [a[0]]);
      assert (a + b)[0] == a[0] && (a + b)[1..] == a[1..] + b;
      calc {
        SpaceBeforeCapitals(a + b);
        h + SpaceBeforeCapitals(a[1..] + b);
        { SpaceBeforeCapitalsAppend(a[1..], b); }
        h + (SpaceBeforeCapitals(a[1..]) + SpaceBeforeCapitals(b));
        (h + SpaceBeforeCapitals(a[1..])) + SpaceBeforeCapitals(b);
      }
    }
  }

  lemma {:induction false} SpacesAreInserted(s: string)
    requires ' ' !in s
    ensures RemoveSpaces(SpaceBeforeCapitals(s)) == s
    ensures |SpaceBeforeCapitals(s)| == |s| + CountUpper(s)
  {
    if s != [] {
      SpacesAreInserted(s[1..]);
      var head := if IsUpper(s[0]) then [' ', s[0]] else [s[0]];
      RemoveSpacesAppend(head, SpaceBeforeCapitals(s[1..]));
      assert [s[0]] + s[1..] == s;
    }
  }

  lemma {:induction false} LowerCommutesWithRemoveSpaces(s: string)
    ensures ToLower(RemoveSpaces(s)) == RemoveSpaces(ToLower(s))
  {
    if s != [] {
      LowerCommutesWithRemoveSpaces(s[1..]);
      var t := ToLower(s);
      assert t[0] == ToLowerChar(s[0]) && t[1..] == ToLower(s[1..]);
      var head := if s[0] == ' ' then [] else [s[0]];
      ToLowerAppend(head, RemoveSpaces(s[1..]));
    }
  }

  /** Lower-casing after dropping spaces, distributed over a first character. */
  lemma LowerWithoutSpacesHead(c: char, rest: string)
    ensures ToLower(RemoveSpaces([c] + rest)) == ToLower(RemoveSpaces([c])) + ToLower(RemoveSpaces(rest))
  {
    RemoveSpacesAppend([c], rest);
    ToLowerAppend(RemoveSpaces([c]), RemoveSpaces(rest));
  }

  /**
   * The display name loses nothing but case: dropping its spaces and lower-casing gives the
   * lower-cased key, and it is one character longer than the key per capital letter.
   */
  lemma DisplayNameRecoversKey(key: string)
    requires ' ' !in key
    ensures ToLower(RemoveSpaces(DisplayName(key))) == ToLower(key)
    ensures |DisplayName(key)| == |key| + CountUpper(key)
  {
    var spaced := SpaceBeforeCapitals(key);
    var lower := ToLower(spaced);
    var name := CapitalizeFirst(lower);
    SpacesAreInserted(key);
    LowerCommutesWithRemoveSpaces(spaced);
    ToLowerIdempotent(RemoveSpaces(spaced));
    // ToLower(RemoveSpaces(lower)) == ToLower(key)
    if lower != [] && !IsLineTerminator(lower[0]) {
      var c := lower[0];
      assert c == ToLowerChar(spaced[0]);
      assert name == [ToUpperChar(c)] + lower[1..];
      assert lower == [c] + lower[1..];
      LowerWithoutSpacesHead(ToUpperChar(c), lower[1..]);
      LowerWithoutSpacesHead(c, lower[1..]);
      assert ToLower(RemoveSpaces([ToUpperChar(c)])) == ToLower(RemoveSpaces([c]));
    }
  }

  lemma {:induction false} NoCapitalsUnchanged(s: string)
    requires NoUpper(s)
    ensures SpaceBeforeCapitals(s) == s && ToLower(s) == s
  {
    if s != [] {
      NoCapitalsUnchanged(s[1..]);
      assert [s[0]] + s[1..] == s;
    }
  }

  /** `SpaceBeforeCapitals` on a two-word key puts one space before the second word. */
  lemma SpacedTwoWords(first: string, capital: char, rest: string)
    requires NoUpper(first) && NoUpper(rest) && IsUpper(capital)
    ensures SpaceBeforeCapitals(first + [capital] + rest) == first + [' ', capital] + rest
  {
    assert SpaceBeforeCapitals([capital]) == [' ', capital] + SpaceBeforeCapitals([]);
    calc {
      SpaceBeforeCapitals(first + [capital] + rest);
      { SpaceBeforeCapitalsAppend(first + [capital], rest); }
      SpaceBeforeCapitals(first + [capital]) + SpaceBeforeCapitals(rest);
      { SpaceBeforeCapitalsAppend(first, [capital]); }
      SpaceBeforeCapitals(first) + SpaceBeforeCapitals([capital]) + SpaceBeforeCapitals(rest);
      { NoCapitalsUnchanged(first); NoCapitalsUnchanged(rest); }
      first + [' ', capital] + rest;
    }
  }

  /** Lower-casing the spaced key lowers the capital and nothing else. */
  lemma LowerTwoWords(first: string, capital: char, rest: string)
    requires NoUpper(first) && NoUpper(rest)
    ensures ToLower(first + [' ', capital] + rest) == first + [' ', ToLowerChar(capital)] + rest
  {
    assert ToLower([capital]) == [ToLowerChar(capital)] + ToLower([]);
    assert ToLower([' ', capital]) == [' '] + ToLower([capital]);
    calc {
      ToLower(first + [' ', capital] + rest);
      { ToLowerAppend(first + [' ', capital], rest); }
      ToLower(first + [' ', capital]) + ToLower(rest);
      { ToLowerAppend(first, [' ', capital]); }
      ToLower(first) + ToLower([' ', capital]) + ToLower(rest);
      { NoCapitalsUnchanged(first); NoCapitalsUnchanged(rest); }
      first + [' ', ToLowerChar(capital)] + rest;
    }
  }

  /** The display name of a two-word key such as `meanRadius`. */
  lemma DisplayNameOfTwoWords(first: string, capital: char, rest: string)
    requires first != [] && 'a' <= first[0] <= 'z' && NoUpper(first) && NoUpper(rest) && IsUpper(capital)
    ensures DisplayName(first + [capital] + rest)
         == [ToUpperChar(first[0])] + first[1..] + [' ', ToLowerChar(capital)] + rest
  {
    SpacedTwoWords(first, capital, rest);
    LowerTwoWords(first, capital, rest);
    var lower := first + [' ', ToLowerChar(capital)] + rest;
    assert lower[0] == first[0];
    assert lower[1..] == first[1..] + [' ', ToLowerChar(capital)] + rest;
  }

  /** The label of each measurement: only the first word is capitalised. */
  function ShownName(f: Feature): string {
    match f
    case MeanRadius => "Mean radius"
    case MeanTexture => "Mean texture"
    case MeanPerimeter => "Mean perimeter"
    case MeanArea => "Mean area"
    case MeanSmoothness => "Mean smoothness"
    case WorstRadius => "Worst radius"
    case WorstTexture => "Worst texture"
    case WorstPerimeter => "Worst perimeter"
    case WorstArea => "Worst area"
    case WorstSmoothness => "Worst smoothness"
  }

  lemma DisplayNameOfMeanRadius(key: string)
    requires key == "meanRadius"
    ensures DisplayName(key) == "Mean radius"
  {
    assert NoUpper("mean") && NoUpper("adius");
    assert key == "mean" + ['R'] + "adius";
    DisplayNameOfTwoWords("mean", 'R', "adius");
  }

  lemma DisplayNameOfMeanTexture(key: string)
    requires key == "meanTexture"
    ensures DisplayName(key) == "Mean texture"
  {
    assert NoUpper("mean") && NoUpper("exture");
    assert key == "mean" + ['T'] + "exture";
    DisplayNameOfTwoWords("mean", 'T', "exture");
  }

  lemma DisplayNameOfMeanPerimeter(key: string)
    requires key == "meanPerimeter"
    ensures DisplayName(key) == "Mean perimeter"
  {
    assert NoUpper("mean") && NoUpper("erimeter");
    assert key == "mean" + ['P'] + "erimeter";
    DisplayNameOfTwoWords("mean", 'P', "erimeter");
  }

  lemma DisplayNameOfMeanArea(key: string)
    requires key == "meanArea"
    ensures DisplayName(key) == "Mean area"
  {
    assert NoUpper("mean") && NoUpper("rea");
    assert key == "mean" + ['A'] + "rea";
    DisplayNameOfTwoWords("mean", 'A', "rea");
  }

  lemma DisplayNameOfMeanSmoothness(key: string)
    requires key == "meanSmoothness"
    ensures DisplayName(key) == "Mean smoothness"
  {
    assert NoUpper("mean") && NoUpper("moothness");
    assert key == "mean" + ['S'] + "moothness";
    DisplayNameOfTwoWords("mean", 'S', "moothness");
  }

  lemma DisplayNameOfWorstRadius(key: string)
    requires key == "worstRadius"
    ensures DisplayName(key) == "Worst radius"
  {
    assert NoUpper("worst") && NoUpper("adius");
    assert key == "worst" + ['R'] + "adius";
    DisplayNameOfTwoWords("worst", 'R', "adius");
  }

  lemma DisplayNameOfWorstTexture(key: string)
    requires key == "worstTexture"
    ensures DisplayName(key) == "Worst texture"
  {
    assert NoUpper("worst") && NoUpper("exture");
    assert key == "worst" + ['T'] + "exture";
    DisplayNameOfTwoWords("worst", 'T', "exture");
  }

  lemma DisplayNameOfWorstPerimeter(key: string)
    requires key == "worstPerimeter"
    ensures DisplayName(key) == "Worst perimeter"
  {
    assert NoUpper("worst") && NoUpper("erimeter");
    assert key == "worst" + ['P'] + "erimeter";
    DisplayNameOfTwoWords("worst", 'P', "erimeter");
  }

  lemma DisplayNameOfWorstArea(key: string)
    requires key == "worstArea"
    ensures DisplayName(key) == "Worst area"
  {
    assert NoUpper("worst") && NoUpper("rea");
    assert key == "worst" + ['A'] + "rea";
    DisplayNameOfTwoWords("worst", 'A', "rea");
  }

  lemma DisplayNameOfWorstSmoothness(key: string)
    requires key == "worstSmoothness"
    ensures DisplayName(key) == "Worst smoothness"
  {
    assert NoUpper("worst") && NoUpper("moothness");
    assert key == "worst" + ['S'] + "moothness";
    DisplayNameOfTwoWords("worst", 'S', "moothness");
  }

  /** The display name of every measurement key. */
  lemma DisplayNameOfKey(f: Feature)
    ensures DisplayName(Key(f)) == ShownName(f)
  {
    match f
    case MeanRadius => DisplayNameOfMeanRadius(Key(f));
    case MeanTexture => DisplayNameOfMeanTexture(Key(f));
    case MeanPerimeter => DisplayNameOfMeanPerimeter(Key(f));
    case MeanArea => DisplayNameOfMeanArea(Key(f));
    case MeanSmoothness => DisplayNameOfMeanSmoothness(Key(f));
    case WorstRadius => DisplayNameOfWorstRadius(Key(f));
    case WorstTexture => DisplayNameOfWorstTexture(Key(f));
    case WorstPerimeter => DisplayNameOfWorstPerimeter(Key(f));
    case WorstArea => DisplayNameOfWorstArea(Key(f));
    case WorstSmoothness => DisplayNameOfWorstSmoothness(Key(f));
  }

  /** No two measurements share a display name. */
  lemma DisplayNamesDistinct(f: Feature, g: Feature)
    requires f != g
    ensures DisplayName(Key(f)) != DisplayName(Key(g))
  {
    DisplayNameOfKey(f);
    DisplayNameOfKey(g);
  }
}
