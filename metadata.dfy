/** The event name and category read from the sheet's third row
    (lib/excel-parser.ts, lines 22-33). */
module Metadata {
  import opened JsText
  import opened Cells

  /** `t` is, in full, a match of the case-insensitive regular expression
      `EVENT\s*:\s*`. */
  predicate IsEventLabel(t: string)
  {
    |t| >= 6 && Upper(t[..5]) == "EVENT" && exists j :: 5 <= j < |t| && ColonAt(t, j)
  }

  /** The colon of the label `t` sits at `j`: whitespace only on either side. */
  predicate ColonAt(t: string, j: int)
  {
    5 <= j < |t| && AllWhitespace(t[5..j]) && t[j] == ':' && AllWhitespace(t[j + 1..])
  }

  /** The length of the text the anchored regular expression `^EVENT\s*:\s*`
      matches at the start of `s`, or 0 when it does not match. Both `\s*`
      are greedy, so what follows the match does not start with whitespace. */
  function EventLabelLength(s: string): (k: nat)
    ensures k <= |s|
  {
    if |s| >= 5 && Upper(s[..5]) == "EVENT" then
      var j := 5 + LeadingWhitespace(s[5..]);
      if j < |s| && s[j] == ':' then j + 1 + LeadingWhitespace(s[j + 1..]) else 0
    else 0
  }

  /** A non-zero length is a label followed by no more whitespace (the greedy
      `\s*`); zero means that no prefix of `s` is a label. */
  lemma EventLabelLengthSpec(s: string)
    ensures var k := EventLabelLength(s);
      && (k > 0 ==> IsEventLabel(s[..k]) && (k == |s| || !IsWhitespace(s[k])))
      && (k == 0 ==> forall m :: 0 <= m <= |s| ==> !IsEventLabel(s[..m]))
  {
    var k := EventLabelLength(s);
    if |s| >= 5 && Upper(s[..5]) == "EVENT" {
      var j := 5 + LeadingWhitespace(s[5..]);
      assert AllWhitespace(s[5..j]) && (j < |s| ==> !IsWhitespace(s[j])) by {
        LeadingWhitespaceSpec(s[5..]);
        assert s[5..j] == s[5..][..j - 5];
      }
      if j < |s| && s[j] == ':' {
        assert k == j + 1 + LeadingWhitespace(s[j + 1..]);
        assert AllWhitespace(s[j + 1..k]) && (k < |s| ==> !IsWhitespace(s[k])) by {
          LeadingWhitespaceSpec(s[j + 1..]);
          assert s[j + 1..k] == s[j + 1..][..k - j - 1];
        }
        LabelPrefix(s, j, k);
      } else {
        assert k == 0;
        NoLabelAfter(s, j);
      }
    } else {
      assert k == 0;
      forall m | 0 <= m <= |s| && |s[..m]| >= 6 ensures Upper(s[..m][..5]) != "EVENT" {
        assert s[..m][..5] == s[..5];
      }
    }
  }

  /** The prefix of `s` up to `k` is a label whose colon is at `j`. */
  lemma LabelPrefix(s: string, j: int, k: int)
    requires 5 <= j < k <= |s| && Upper(s[..5]) == "EVENT"
    requires AllWhitespace(s[5..j]) && s[j] == ':' && AllWhitespace(s[j + 1..k])
    ensures IsEventLabel(s[..k])
  {
    var t := s[..k];
    assert t[..5] == s[..5];
    assert t[5..j] == s[5..j];
    assert t[j + 1..] == s[j + 1..k];
    assert ColonAt(t, j);
  }

  /** When the whitespace after "EVENT" ends at `j` and `s[j]` is not a colon,
      no prefix of `s` is a label. */
  lemma NoLabelAfter(s: string, j: int)
    requires 5 <= j <= |s| && AllWhitespace(s[5..j]) && (j < |s| ==> !IsWhitespace(s[j]))
    requires j == |s| || s[j] != ':'
    ensures forall m :: 0 <= m <= |s| ==> !IsEventLabel(s[..m])
  {
    forall m | 0 <= m <= |s| ensures !IsEventLabel(s[..m]) {
      var t := s[..m];
      forall c | 5 <= c < |t| ensures !ColonAt(t, c) {
        if c < j {
          assert t[c] == s[5..j][c - 5];
        } else if c > j {
          assert t[5..c][j - 5] == s[j];
        } else {
          assert t[c] == s[j];
        }
      }
    }
  }

  /** `s.replace` of the case-insensitive `^EVENT\s*:\s*` by the empty string. */
  function StripEventLabel(s: string): string
  {
    s[EventLabelLength(s)..]
  }

  /** `String(row[0] || "")` with the label removed, then trimmed. A blank
      result means the sheet is not a results sheet. */
  function EventName(eventRow: Row): string
  {
    Trim(StripEventLabel(FieldText(eventRow, 0)))
  }

  /** The event name is trimmed, blank exactly when what follows the label is
      all whitespace, and is the first cell's text with, at most, a leading
      label cut off: either nothing was cut and no prefix of the text is a
      label, or exactly a label was cut. */
  lemma EventNameSpec(eventRow: Row)
    ensures IsTrimmed(EventName(eventRow))
    ensures EventName(eventRow) == "" <==> AllWhitespace(StripEventLabel(FieldText(eventRow, 0)))
    ensures var raw := FieldText(eventRow, 0);
      || (EventName(eventRow) == Trim(raw) && forall m :: 0 <= m <= |raw| ==> !IsEventLabel(raw[..m]))
      || (exists k :: 0 < k <= |raw| && IsEventLabel(raw[..k]) && EventName(eventRow) == Trim(raw[k..]))
  {
    var raw := FieldText(eventRow, 0);
    TrimSpec(StripEventLabel(raw));
    EventLabelLengthSpec(raw);
    var k := EventLabelLength(raw);
    if k == 0 { assert raw[0..] == raw; }
  }

  /** The category label: a string cell whose trimmed, lower-cased text
      contains "category". Number cells never are labels. */
  predicate IsCategoryLabel(c: Cell)
  {
    c.Text? && Contains(Lower(Trim(c.s)), "category")
  }

  /** Cell `i` is the first category label of the row. */
  predicate FirstCategoryLabel(row: Row, i: int)
  {
    0 <= i < |row| && IsCategoryLabel(row[i]) && forall j :: 0 <= j < i ==> !IsCategoryLabel(row[j])
  }

  /** The text of the cell after the label, `String(row[i + 1]).trim()`. */
  function CategoryValue(row: Row, i: int): string
    requires 0 <= i && i + 1 < |row|
  {
    Trim(ToText(row[i + 1]))
  }

  /** The category: the trimmed cell after the first category label when that
      cell exists and its JavaScript `length` is more than 1, otherwise "General". */
  function Category(eventRow: Row): string
  {
    var idx := FindIndex(eventRow, IsCategoryLabel);
    if idx != -1 && |eventRow| > idx + 1 then
      var v := CategoryValue(eventRow, idx);
      if Utf16Length(v) > 1 then v else "General"
    else "General"
  }

  /** The category is the value after the first label when that value's
      JavaScript `length` is more than 1, and "General" otherwise; either way
      it is non-blank, trimmed and at least two code units long. */
  lemma CategorySpec(eventRow: Row)
    ensures forall i :: FirstCategoryLabel(eventRow, i) && i + 1 < |eventRow| && Utf16Length(CategoryValue(eventRow, i)) > 1
               ==> Category(eventRow) == CategoryValue(eventRow, i)
    ensures (forall i :: FirstCategoryLabel(eventRow, i) && i + 1 < |eventRow| ==> Utf16Length(CategoryValue(eventRow, i)) <= 1)
               ==> Category(eventRow) == "General"
    ensures Category(eventRow) != "" && Utf16Length(Category(eventRow)) > 1 && IsTrimmed(Category(eventRow))
  {
    var idx := FindIndex(eventRow, IsCategoryLabel);
    FindIndexSpec(eventRow, IsCategoryLabel);
    assert forall i :: FirstCategoryLabel(eventRow, i) ==> i == idx;
    if idx != -1 && |eventRow| > idx + 1 && Utf16Length(CategoryValue(eventRow, idx)) > 1 {
      var v := CategoryValue(eventRow, idx);
      assert Category(eventRow) == v;
      assert IsTrimmed(v) by { TrimSpec(ToText(eventRow[idx + 1])); }
      assert v != [];
    } else {
      assert Category(eventRow) == "General";
      GeneralIsACategory();
    }
  }

  /** The fallback "General" is trimmed and seven code units long. */
  lemma GeneralIsACategory()
    ensures IsTrimmed("General") && Utf16Length("General") == 7
  {
    Utf16LengthOfBmp("General");
  }

  /** A number after the category label is taken only with two digits or
      more: 0 to 9 leave the category "General", 10 and above become its
      decimal text. */
  lemma NumericCategory(row: Row, i: int, n: nat)
    requires FirstCategoryLabel(row, i) && i + 1 < |row| && row[i + 1] == Number(n)
    ensures n < 10 ==> Category(row) == "General"
    ensures n >= 10 ==> Category(row) == NatDecimal(n)
  {
    var d := NatDecimal(n);
    assert !IsWhitespace(d[0]) && !IsWhitespace(d[|d| - 1]);
    TrimOfTrimmed(d);
    Utf16LengthOfBmp(d);
    CategorySpec(row);
  }

  /** A single character beyond U+FFFF after the label is two UTF-16 code
      units long, so it is taken as the category. */
  lemma AstralCategory(row: Row, i: int, c: char)
    requires FirstCategoryLabel(row, i) && i + 1 < |row| && row[i + 1] == Text([c])
    requires c as int >= 0x1_0000
    ensures Category(row) == [c]
  {
    assert !IsWhitespace(c);
    TrimOfTrimmed([c]);
    assert Utf16Length([c]) == 2;
    CategorySpec(row);
  }
}
