/**
 * formatLocations (util.go): turns a raw location key such as
 * "new_york-usa" into the display form "New York, USA".
 */
module Util {
  import opened GoStrings

  /** Steps one and two: `-` becomes ", " and `_` becomes a space. */
  function Spread(location: string): string {
    Replace(Replace(location, "-", ", "), "_", " ")
  }

  /** Step four: the two title-casing artifacts ", Usa" and ", Uk" are upper-cased. */
  function Patch(s: string): string {
    Replace(Replace(s, ", Usa", ", USA"), ", Uk", ", UK")
  }

  function FormatLocations(location: string): string {
    Patch(Title(Spread(location)))
  }

  /** The letters that the patches may upper-case. */
  const Patched: set<char> := {'s', 'a', 'k'}

  lemma RaisesCompose(s: string, t: string, u: string, L1: set<char>, L2: set<char>)
    requires forall c :: c in L1 + L2 ==> IsAsciiLower(c)
    requires Raises(s, t, L1) && Raises(t, u, L2)
    ensures Raises(s, u, L1 + L2)
  {
    forall i | 0 <= i < |s| ensures RaisedAt(s[i], u[i], L1 + L2) {
      assert RaisedAt(s[i], t[i], L1) && RaisedAt(t[i], u[i], L2);
      if t[i] != s[i] {
        assert !IsAsciiLower(t[i]);
      }
    }
  }

  /**
   * The patches only upper-case letters of ", Usa" and ", Uk", turn every
   * occurrence of either into ", USA" or ", UK" where it stands, keep every
   * character that no occurrence covers, and leave neither pattern anywhere
   * in the string.
   */
  lemma PatchSpec(s: string)
    ensures Raises(s, Patch(s), Patched)
    ensures NoOccurrence(Patch(s), ", Usa") && NoOccurrence(Patch(s), ", Uk")
    ensures forall i :: OccursAt(s, ", Usa", i) ==> OccursAt(Patch(s), ", USA", i)
    ensures forall i :: OccursAt(s, ", Uk", i) ==> OccursAt(Patch(s), ", UK", i)
    ensures forall k :: 0 <= k < |s| && !Covered(s, ", Usa", k) && !Covered(s, ", Uk", k) ==>
      Patch(s)[k] == s[k]
  {
    forall i | OccursAt(s, ", Usa", i) ensures OccursAt(Patch(s), ", USA", i) {
      PatchKeepsUsa(s, i);
    }
    forall i | OccursAt(s, ", Uk", i) ensures OccursAt(Patch(s), ", UK", i) {
      PatchKeepsUk(s, i);
    }
    var t := Replace(s, ", Usa", ", USA");
    var u := Replace(t, ", Uk", ", UK");
    assert Raises(", Usa", ", USA", {'s', 'a'});
    ReplaceRaises(s, ", Usa", ", USA", {'s', 'a'});
    ReplaceLeavesNone(s, ", Usa", ", USA");
    assert Raises(", Uk", ", UK", {'k'});
    ReplaceRaises(t, ", Uk", ", UK", {'k'});
    ReplaceLeavesNone(t, ", Uk", ", UK");
    assert ToTitle('k') == 'K';
    RaisesKeepsNoOccurrence(t, u, ", Usa", {'k'});
    RaisesCompose(s, t, u, {'s', 'a'}, {'k'});
    assert {'s', 'a'} + {'k'} == Patched;
    forall k | 0 <= k < |s| && !Covered(s, ", Usa", k) && !Covered(s, ", Uk", k) ensures Patch(s)[k] == s[k] {
      PatchKeepsRest(s, k);
    }
  }

  /** An occurrence of ", Usa" becomes ", USA", which the second patch leaves alone. */
  lemma PatchKeepsUsa(s: string, i: int)
    requires OccursAt(s, ", Usa", i)
    ensures OccursAt(Patch(s), ", USA", i)
  {
    var t := Replace(s, ", Usa", ", USA");
    ReplaceKeepsOccurrence(s, ", Usa", ", USA", i);
    assert t[i + 3] == t[i..i + 5][3] == 'S';
    assert !OccursAt(t, ", Uk", i) by {
      if i + 4 <= |t| {
        assert t[i..i + 4][3] == t[i + 3];
      }
    }
    ReplaceKeepsOther(t, ", Uk", ", UK", ", USA", i);
  }

  /** An occurrence of ", Uk" is left by the first patch and becomes ", UK" in the second. */
  lemma PatchKeepsUk(s: string, i: int)
    requires OccursAt(s, ", Uk", i)
    ensures OccursAt(Patch(s), ", UK", i)
  {
    assert s[i + 3] == s[i..i + 4][3] == 'k';
    assert !OccursAt(s, ", Usa", i) by {
      if i + 5 <= |s| {
        assert s[i..i + 5][3] == s[i + 3];
      }
    }
    ReplaceKeepsOther(s, ", Usa", ", USA", ", Uk", i);
    ReplaceKeepsOccurrence(Replace(s, ", Usa", ", USA"), ", Uk", ", UK", i);
  }

  /**
   * A character outside every ", Usa" and ", Uk" is kept: the first patch
   * copies it, and creates no ", Uk" that the second could rewrite.
   */
  lemma PatchKeepsRest(s: string, k: int)
    requires 0 <= k < |s| && !Covered(s, ", Usa", k) && !Covered(s, ", Uk", k)
    ensures |Patch(s)| == |s| && Patch(s)[k] == s[k]
  {
    var t := Replace(s, ", Usa", ", USA");
    ReplaceKeepsUncovered(s, ", Usa", ", USA", k);
    assert Raises(", Usa", ", USA", {'s', 'a'});
    ReplaceRaises(s, ", Usa", ", USA", {'s', 'a'});
    assert ToTitle('s') == 'S' && ToTitle('a') == 'A';
    forall i | k - 4 < i <= k ensures !OccursAt(t, ", Uk", i) {
      if OccursAt(t, ", Uk", i) {
        RaisesReflectsOccurrence(s, t, ", Uk", {'s', 'a'}, i);
      }
    }
    ReplaceKeepsUncovered(t, ", Uk", ", UK", k);
  }

  /** A character other than a lower-case letter that is absent stays absent from Title. */
  lemma TitleKeepsAbsent(s: string, x: char)
    requires x !in s && !IsAsciiUpper(x)
    ensures x !in Title(s)
  {
    var r := Title(s);
    forall i | 0 <= i < |r| ensures r[i] != x {
      assert r[i] == s[i] || r[i] == ToTitle(s[i]);
    }
  }

  /** Steps one and two: every `-` adds one character. */
  lemma SpreadLength(location: string)
    ensures |Spread(location)| == |location| + CountChar(location, '-')
  {
    var s1 := Replace(location, "-", ", ");
    ReplaceCharLength(location, '-', ", ");
    ReplaceCharLength(s1, '_', " ");
  }

  /** Every `-` adds one character; nothing else changes the length. */
  lemma FormatLocationsLength(location: string)
    ensures |FormatLocations(location)| == |location| + CountChar(location, '-')
  {
    SpreadLength(location);
    PatchSpec(Title(Spread(location)));
  }

  /** The empty location stays empty. */
  lemma FormatLocationsEmpty()
    ensures FormatLocations("") == ""
  {
    FormatLocationsLength("");
  }

  /** No `-` and no `_` survive. */
  lemma FormatLocationsNoDashNoUnderscore(location: string)
    ensures '-' !in FormatLocations(location) && '_' !in FormatLocations(location)
  {
    var s1 := Replace(location, "-", ", ");
    var s2 := Replace(s1, "_", " ");
    var s3 := Title(s2);
    var s4 := Replace(s3, ", Usa", ", USA");
    ReplaceRemovesChar(location, '-', ", ");
    ReplaceKeepsAbsent(s1, "_", " ", '-');
    ReplaceRemovesChar(s1, '_', " ");
    TitleKeepsAbsent(s2, '-');
    TitleKeepsAbsent(s2, '_');
    ReplaceKeepsAbsent(s3, ", Usa", ", USA", '-');
    ReplaceKeepsAbsent(s3, ", Usa", ", USA", '_');
    ReplaceKeepsAbsent(s4, ", Uk", ", UK", '-');
    ReplaceKeepsAbsent(s4, ", Uk", ", UK", '_');
  }

  /** Every letter that starts a word of the result is upper-case. */
  lemma FormatLocationsTitleCased(location: string)
    ensures TitleCased(FormatLocations(location))
  {
    var s3 := Title(Spread(location));
    TitleIsTitleCased(Spread(location));
    PatchSpec(s3);
    RaisesKeepsTitleCased(s3, Patch(s3), Patched);
  }

  /** No ", Usa" and no ", Uk" is left, also where ", Uk" begins a longer word. */
  lemma FormatLocationsPatched(location: string)
    ensures NoOccurrence(FormatLocations(location), ", Usa")
    ensures NoOccurrence(FormatLocations(location), ", Uk")
  {
    PatchSpec(Title(Spread(location)));
  }

  /** Formatting an already formatted location changes nothing. */
  lemma FormatLocationsIdempotent(location: string)
    ensures FormatLocations(FormatLocations(location)) == FormatLocations(location)
  {
    var y := FormatLocations(location);
    FormatLocationsNoDashNoUnderscore(location);
    FormatLocationsTitleCased(location);
    FormatLocationsPatched(location);
    NoCharNoOccurrence(y, '-');
    ReplaceAbsent(y, "-", ", ");
    NoCharNoOccurrence(y, '_');
    ReplaceAbsent(y, "_", " ");
    TitleOfTitleCased(y);
    ReplaceAbsent(y, ", Usa", ", USA");
    ReplaceAbsent(y, ", Uk", ", UK");
  }

  /** Chains the four steps of FormatLocations. */
  lemma FormatSteps(location: string, spread: string, titled: string, formatted: string)
    requires Spread(location) == spread
    requires Title(spread) == titled
    requires Patch(titled) == formatted
    ensures FormatLocations(location) == formatted
  {
  }

  /** A place and a country with neither `-` nor `_` in them: the dash becomes ", ". */
  lemma SpreadPair(w: string, v: string)
    requires '-' !in w && '-' !in v && '_' !in w && '_' !in v
    ensures Spread(w + "-" + v) == w + ", " + v
  {
    ReplaceJoin(w, v, "-", ", ");
    assert '_' !in w + ", " + v;
    ReplaceNone(w + ", " + v, "_", " ");
  }

  /** A two-word place: the underscore becomes a space and the dash ", ". */
  lemma SpreadTriple(w: string, x: string, v: string)
    requires '-' !in w && '-' !in x && '-' !in v && '_' !in w && '_' !in x && '_' !in v
    ensures Spread(w + "_" + x + "-" + v) == w + " " + x + ", " + v
  {
    assert '-' !in w + "_" + x;
    ReplaceJoin(w + "_" + x, v, "-", ", ");
    assert w + "_" + x + ", " + v == w + "_" + (x + ", " + v);
    assert '_' !in x + ", " + v;
    ReplaceJoin(w, x + ", " + v, "_", " ");
    assert w + " " + (x + ", " + v) == w + " " + x + ", " + v;
  }

  /** ", Uk" is upper-cased whatever follows it, and ", Usa" is not there to patch. */
  lemma PatchUk(w: string, rest: string)
    requires ',' !in w && ',' !in rest
    ensures Patch(w + ", Uk" + rest) == w + ", UK" + rest
  {
    var b := " Uk" + rest;
    assert w + ", Uk" + rest == w + [','] + b;
    assert b[2] == 'k';
    assert ',' !in b;
    ReplaceMiss(w, b, ", Usa", ", USA");
    ReplaceJoin(w, rest, ", Uk", ", UK");
  }

  /** ", Usa" is upper-cased, and the result holds no ", Uk". */
  lemma PatchUsa(w: string, rest: string)
    requires ',' !in w && ',' !in rest
    ensures Patch(w + ", Usa" + rest) == w + ", USA" + rest
  {
    ReplaceJoin(w, rest, ", Usa", ", USA");
    var b := " USA" + rest;
    assert w + ", USA" + rest == w + [','] + b;
    assert b[2] == 'S';
    assert ',' !in b;
    ReplaceMiss(w, b, ", Uk", ", UK");
  }

  /** A country that does not start with `U` is left as it is. */
  lemma PatchOther(w: string, v: string)
    requires ',' !in w && ',' !in v && (v == [] || v[0] != 'U')
    ensures Patch(w + ", " + v) == w + ", " + v
  {
    var b := " " + v;
    assert w + ", " + v == w + [','] + b;
    assert ',' !in b;
    assert |b| < 3 || b[1] != 'U';
    ReplaceMiss(w, b, ", Usa", ", USA");
    ReplaceMiss(w, b, ", Uk", ", UK");
  }

  // Each step below is stated about a parameter equal to the literal, so
  // that the verifier works through the generic lemmas rather than by
  // unfolding the recursive definitions on the literal.

  lemma SpreadLondon(location: string)
    requires location == "london-uk"
    ensures Spread(location) == "london, uk"
  {
    SpreadPair("london", "uk");
    assert "london" + "-" + "uk" == location;
    assert "london" + ", " + "uk" == "london, uk";
  }

  lemma TitleLondon(s: string)
    requires s == "london, uk"
    ensures Title(s) == "London, Uk"
  {
    TitleTwoWords("london", "uk");
  }

  lemma PatchLondon(s: string)
    requires s == "London, Uk"
    ensures Patch(s) == "London, UK"
  {
    PatchUk("London", "");
    assert "London" + ", Uk" + "" == s;
  }

  /** "london-uk" is shown as "London, UK". */
  lemma FormatLondon()
    ensures FormatLocations("london-uk") == "London, UK"
  {
    SpreadLondon("london-uk");
    TitleLondon("london, uk");
    PatchLondon("London, Uk");
    FormatSteps("london-uk", "london, uk", "London, Uk", "London, UK");
  }

  lemma SpreadNewYork(location: string)
    requires location == "new_york-usa"
    ensures Spread(location) == "new york, usa"
  {
    SpreadTriple("new", "york", "usa");
    assert "new" + "_" + "york" + "-" + "usa" == location;
    assert "new" + " " + "york" + ", " + "usa" == "new york, usa";
  }

  lemma TitleNewYork(s: string)
    requires s == "new york, usa"
    ensures Title(s) == "New York, Usa"
  {
    TitleThreeWords("new", "york", "usa");
  }

  lemma PatchNewYork(s: string)
    requires s == "New York, Usa"
    ensures Patch(s) == "New York, USA"
  {
    PatchUsa("New York", "");
    assert "New York" + ", Usa" + "" == s;
  }

  /** "new_york-usa" is shown as "New York, USA". */
  lemma FormatNewYork()
    ensures FormatLocations("new_york-usa") == "New York, USA"
  {
    SpreadNewYork("new_york-usa");
    TitleNewYork("new york, usa");
    PatchNewYork("New York, Usa");
    FormatSteps("new_york-usa", "new york, usa", "New York, Usa", "New York, USA");
  }

  lemma SpreadKyiv(location: string)
    requires location == "kyiv-ukraine"
    ensures Spread(location) == "kyiv, ukraine"
  {
    SpreadPair("kyiv", "ukraine");
    assert "kyiv" + "-" + "ukraine" == location;
    assert "kyiv" + ", " + "ukraine" == "kyiv, ukraine";
  }

  lemma TitleKyiv(s: string)
    requires s == "kyiv, ukraine"
    ensures Title(s) == "Kyiv, Ukraine"
  {
    TitleTwoWords("kyiv", "ukraine");
  }

  lemma PatchKyiv(s: string)
    requires s == "Kyiv, Ukraine"
    ensures Patch(s) == "Kyiv, UKraine"
  {
    PatchUk("Kyiv", "raine");
    assert "Kyiv" + ", Uk" + "raine" == s;
    assert "Kyiv" + ", UK" + "raine" == "Kyiv, UKraine";
  }

  /** ", Uk" is upper-cased even where it begins a longer word. */
  lemma FormatKyiv()
    ensures FormatLocations("kyiv-ukraine") == "Kyiv, UKraine"
  {
    SpreadKyiv("kyiv-ukraine");
    TitleKyiv("kyiv, ukraine");
    PatchKyiv("Kyiv, Ukraine");
    FormatSteps("kyiv-ukraine", "kyiv, ukraine", "Kyiv, Ukraine", "Kyiv, UKraine");
  }

  lemma SpreadParis(location: string)
    requires location == "paris-france"
    ensures Spread(location) == "paris, france"
  {
    SpreadPair("paris", "france");
    assert "paris" + "-" + "france" == location;
    assert "paris" + ", " + "france" == "paris, france";
  }

  lemma TitleParis(s: string)
    requires s == "paris, france"
    ensures Title(s) == "Paris, France"
  {
    TitleTwoWords("paris", "france");
  }

  lemma PatchParis(s: string)
    requires s == "Paris, France"
    ensures Patch(s) == "Paris, France"
  {
    PatchOther("Paris", "France");
    assert "Paris" + ", " + "France" == s;
  }

  /** A country other than USA or UK keeps its title-cased form. */
  lemma FormatParis()
    ensures FormatLocations("paris-france") == "Paris, France"
  {
    SpreadParis("paris-france");
    TitleParis("paris, france");
    PatchParis("Paris, France");
    FormatSteps("paris-france", "paris, france", "Paris, France", "Paris, France");
  }
}
