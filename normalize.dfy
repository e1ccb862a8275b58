/** Per-cell normalisation of the grade and place columns
    (lib/excel-parser.ts, lines 68-85). */
module Normalize {
  import opened JsText

  /** A string with no ASCII upper-case letter. */
  predicate NoUpperCase(s: string)
  {
    forall i :: 0 <= i < |s| ==> !('A' <= s[i] <= 'Z')
  }

  /** A string with no ASCII lower-case letter. */
  predicate NoLowerCase(s: string)
  {
    forall i :: 0 <= i < |s| ==> !('a' <= s[i] <= 'z')
  }

  /** The grade cell's text trimmed and upper-cased, with the legacy "1"
      read as grade A. */
  function NormalizeGrade(raw: string): string
  {
    var u := Upper(Trim(raw));
    if u == "1" then "A" else u
  }

  /** A normalised grade has no lower-case letter and no padding; it is blank
      exactly when the cell is; apart from the legacy "1" it is the trimmed
      cell with its letters upper-cased, so it agrees with the cell letter
      for letter once case is ignored. */
  lemma NormalizeGradeSpec(raw: string)
    ensures var g := NormalizeGrade(raw);
      && NoLowerCase(g) && IsTrimmed(g)
      && (g == "" <==> AllWhitespace(raw))
      && (Trim(raw) == "1" ==> g == "A")
      && (Trim(raw) != "1" ==> |g| == |Trim(raw)| && Lower(g) == Lower(Trim(raw)))
  {
    var t := Trim(raw);
    assert IsTrimmed(t) && (t == [] <==> AllWhitespace(raw)) by { TrimSpec(raw); }
    UpperFacts(t);
  }

  /** Upper-casing only touches `a`-`z`: it keeps whitespace, lengths and the lower-cased form. */
  lemma UpperFacts(t: string)
    ensures var u := Upper(t);
      && |u| == |t| && NoLowerCase(u)
      && (IsTrimmed(t) ==> IsTrimmed(u))
      && Lower(u) == Lower(t)
      && (u == "1" <==> t == "1")
  {
    var u := Upper(t);
    assert forall i :: 0 <= i < |t| ==> IsWhitespace(u[i]) == IsWhitespace(t[i]);
    assert Lower(u) == Lower(t) by {
      forall i | 0 <= i < |t| ensures Lower(u)[i] == Lower(t)[i] {}
    }
    if u == "1" {
      assert t[0] == '1';
    }
  }

  /** The place cell's text trimmed and lower-cased, then one leading '-'
      removed (the regular expression `^-`). Nothing is trimmed again after
      the hyphen goes. */
  function PlaceToken(raw: string): string
  {
    var l := Lower(Trim(raw));
    if |l| > 0 && l[0] == '-' then l[1..] else l
  }

  /** The token has no upper-case letter; it is the lower-cased trimmed cell
      with its one leading hyphen removed when there is one, and the whole
      lower-cased trimmed cell otherwise. */
  lemma PlaceTokenSpec(raw: string)
    ensures var t := PlaceToken(raw);
      var l := Lower(Trim(raw));
      && NoUpperCase(t)
      && (|l| > 0 && l[0] == '-' ==> l == "-" + t)
      && (!(|l| > 0 && l[0] == '-') ==> l == t)
  {
    var l := Lower(Trim(raw));
    if |l| > 0 && l[0] == '-' {
      assert l == "-" + l[1..];
    }
  }

  /** `s.charAt(0).toUpperCase() + s.slice(1)` */
  function Capitalize(s: string): string
  {
    if s == [] then "" else [UpperChar(s[0])] + s[1..]
  }

  /** Lower-casing undoes `Capitalize` on a string without upper-case letters. */
  lemma LowerCapitalize(s: string)
    requires NoUpperCase(s)
    ensures Lower(Capitalize(s)) == s
  {
  }

  /** The outcome of reading the place column: the place and the grade as the
      place rule may have defaulted it. */
  datatype Placing = Placing(place: string, grade: string)

  /** The first of the place tests that the token passes decides the place;
      the Roman "i" also gives a blank grade the value A. */
  predicate MeansFirst(t: string)  { Contains(t, "fir") || t == "1" }
  predicate MeansSecond(t: string) { Contains(t, "seco") || t == "2" }
  predicate MeansThird(t: string)  { Contains(t, "thi") || t == "3" }

  function NormalizePlace(raw: string, grade: string): Placing
  {
    var t := PlaceToken(raw);
    if MeansFirst(t) then Placing("First", grade)
    else if MeansSecond(t) then Placing("Second", grade)
    else if MeansThird(t) then Placing("Third", grade)
    else if t == "i" then Placing("First", if grade == "" then "A" else grade)
    else Placing(Capitalize(t), grade)
  }

  /** The place is First, Second or Third exactly when the token passes that
      test and none before it ("i" counting as First); any other token is
      kept, capitalised, with its letters unchanged otherwise. The grade
      changes only for "i" with a blank grade. */
  lemma NormalizePlaceSpec(raw: string, grade: string)
    ensures var t := PlaceToken(raw);
      var p := NormalizePlace(raw, grade);
      && (p.place == "First" <==> MeansFirst(t) || t == "i")
      && (p.place == "Second" <==> !MeansFirst(t) && MeansSecond(t))
      && (p.place == "Third" <==> !MeansFirst(t) && !MeansSecond(t) && MeansThird(t))
      && (p.place !in {"First", "Second", "Third"} ==>
            && Lower(p.place) == t && |p.place| == |t|
            && (|t| > 0 ==> p.place[0] == UpperChar(t[0]) && p.place[1..] == t[1..]))
      && p.grade == (if t == "i" && grade == "" then "A" else grade)
  {
    var t := PlaceToken(raw);
    assert !MeansSecond("i") && !MeansThird("i");
    if !MeansFirst(t) && !MeansSecond(t) && !MeansThird(t) && t != "i" {
      var c := Capitalize(t);
      assert Lower(c) == t by {
        PlaceTokenSpec(raw);
        LowerCapitalize(t);
      }
      PlaceNamesMeanThemselves();
    }
  }

  /** Lower-cased, each of the three place names reads as that place. */
  lemma PlaceNamesMeanThemselves()
    ensures Lower("First") == "first" && MeansFirst("first")
    ensures Lower("Second") == "second" && MeansSecond("second")
    ensures Lower("Third") == "third" && MeansThird("third")
  {
    assert "first"[..3] == "fir";
    assert "second"[..4] == "seco";
    assert "third"[..3] == "thi";
  }

  /** A hyphenated abbreviation in capitals reads as first place. */
  lemma HyphenatedFirst()
    ensures NormalizePlace("-FIRST", "") == Placing("First", "")
  {
    TrimmedToken("-FIRST");
    assert Lower("-FIRST")[1..] == "first";
    PlaceNamesMeanThemselves();
  }

  /** The Roman "I" reads as first place and gives a blank grade the value A,
      but keeps a grade that is already there. */
  lemma RomanOne(grade: string)
    ensures NormalizePlace("I", grade) == Placing("First", if grade == "" then "A" else grade)
  {
    TrimmedToken("I");
    assert Lower("I") == "i";
    assert !Contains("i", "fir") && !Contains("i", "seco") && !Contains("i", "thi");
  }

  /** An ordinal such as "1st" is not stripped: it is neither "1" nor contains
      "fir", so it passes through as the residual "1st". */
  lemma OrdinalNotStripped()
    ensures NormalizePlace("1st", "A") == Placing("1st", "A")
  {
    TrimmedToken("1st");
    assert Lower("1st") == "1st";
    NotContainsByFirstChar("1st", "fir");
    NotContainsByFirstChar("1st", "seco");
    NotContainsByFirstChar("1st", "thi");
  }

  /** The token of a cell that needs no trimming is the cell lower-cased,
      less a leading hyphen. */
  lemma TrimmedToken(raw: string)
    requires IsTrimmed(raw)
    ensures PlaceToken(raw) == if |raw| > 0 && raw[0] == '-' then Lower(raw)[1..] else Lower(raw)
  {
    TrimOfTrimmed(raw);
  }

  /** Free text is kept lower-cased, with only its first letter capitalised. */
  lemma FreeTextPlace()
    ensures NormalizePlace("NIL", "") == Placing("Nil", "")
  {
    TrimmedToken("NIL");
    assert Lower("NIL") == "nil";
    NilMeansNoPlace();
    assert Capitalize("nil") == "Nil";
  }

  /** "nil" contains none of "fir", "seco" and "thi". */
  lemma NilMeansNoPlace()
    ensures !MeansFirst("nil") && !MeansSecond("nil") && !MeansThird("nil")
  {
    NotContainsByFirstChar("nil", "fir");
    NotContainsByFirstChar("nil", "seco");
    NotContainsByFirstChar("nil", "thi");
  }

  /** A blank place cell stays blank. */
  lemma BlankPlace(grade: string)
    ensures NormalizePlace("", grade) == Placing("", grade)
  {
    assert !Contains("", "fir") && !Contains("", "seco") && !Contains("", "thi");
  }

  /** Grades: case and padding do not matter, and "1" is grade A. */
  lemma GradeExamples()
    ensures NormalizeGrade(" b ") == "B"
    ensures NormalizeGrade("1") == "A"
    ensures NormalizeGrade("  ") == ""
  {
    assert Trim(" b ") == "b";
    assert Trim("1") == "1";
  }
}
