/** The group-event test and the two additive points tables
    (lib/excel-parser.ts, lines 13, 52 and 88-97). */
module Scoring {
  import opened JsText

  /** The keywords that mark an event as a group event. */
  const GroupKeywords: seq<string> := ["GROUP"]

  /** `keywords.some(k => s.includes(k))` */
  function AnyKeyword(keywords: seq<string>, s: string): (r: bool)
    ensures r <==> exists i :: 0 <= i < |keywords| && Contains(s, keywords[i])
  {
    if keywords == [] then false
    else
      assert forall i :: 1 <= i < |keywords| ==> keywords[i] == keywords[1..][i - 1];
      Contains(s, keywords[0]) || AnyKeyword(keywords[1..], s)
  }

  /** An event is a group event when its upper-cased name contains a keyword. */
  function IsGroup(eventName: string): bool
  {
    AnyKeyword(GroupKeywords, Upper(eventName))
  }

  /** The group test is a case-insensitive substring test for "GROUP". */
  lemma IsGroupSpec(eventName: string)
    ensures IsGroup(eventName) <==> exists i :: OccursAt(Upper(eventName), "GROUP", i)
  {
    assert GroupKeywords[0] == "GROUP";
    ContainsSpec(Upper(eventName), "GROUP");
  }

  /** Points for the place: 5, 3, 1 for First, Second, Third (doubled for a
      group event), 0 for anything else. */
  function PlacePoints(place: string, isGroup: bool): nat
  {
    if place == "First" then (if isGroup then 10 else 5)
    else if place == "Second" then (if isGroup then 6 else 3)
    else if place == "Third" then (if isGroup then 2 else 1)
    else 0
  }

  /** Points for the grade: 5, 3, 1 for A, B, C (doubled for a group event),
      0 for anything else, the blank grade included. */
  function GradePoints(grade: string, isGroup: bool): nat
  {
    if grade == "A" then (if isGroup then 10 else 5)
    else if grade == "B" then (if isGroup then 6 else 3)
    else if grade == "C" then (if isGroup then 2 else 1)
    else 0
  }

  /** The most a single award (place or grade) is worth. */
  function MaxAward(isGroup: bool): nat
  {
    if isGroup then 10 else 5
  }

  /** A row's points: the place award plus the grade award. */
  function Points(place: string, grade: string, isGroup: bool): (p: nat)
    ensures p <= 2 * MaxAward(isGroup)
    ensures p == 2 * MaxAward(isGroup) <==> place == "First" && grade == "A"
    ensures p == 0 <==> place !in {"First", "Second", "Third"} && grade !in {"A", "B", "C"}
  {
    PlacePoints(place, isGroup) + GradePoints(grade, isGroup)
  }

  /** The place table and the grade table are the same scale: First pays what
      A pays, Second what B pays, Third what C pays. */
  lemma PlaceAndGradeTablesAgree(isGroup: bool)
    ensures PlacePoints("First", isGroup) == GradePoints("A", isGroup) == MaxAward(isGroup)
    ensures PlacePoints("Second", isGroup) == GradePoints("B", isGroup)
    ensures PlacePoints("Third", isGroup) == GradePoints("C", isGroup)
  {
  }

  /** A group event pays exactly twice the individual points, award by award. */
  lemma GroupPaysDouble(place: string, grade: string)
    ensures PlacePoints(place, true) == 2 * PlacePoints(place, false)
    ensures GradePoints(grade, true) == 2 * GradePoints(grade, false)
    ensures Points(place, grade, true) == 2 * Points(place, grade, false)
  {
  }

  /** Better places and better grades pay strictly more. */
  lemma AwardsAreOrdered(isGroup: bool)
    ensures PlacePoints("First", isGroup) > PlacePoints("Second", isGroup)
              > PlacePoints("Third", isGroup) > PlacePoints("", isGroup)
    ensures GradePoints("A", isGroup) > GradePoints("B", isGroup)
              > GradePoints("C", isGroup) > GradePoints("", isGroup)
  {
  }

  /** "Group Oppana" is a group event, so Second place with grade B earns 6 + 6. */
  lemma GroupOppanaExample()
    ensures IsGroup("Group Oppana")
    ensures Points("Second", "B", IsGroup("Group Oppana")) == 12
  {
    assert Upper("Group Oppana")[..5] == "GROUP";
    assert OccursAt(Upper("Group Oppana"), "GROUP", 0);
    IsGroupSpec("Group Oppana");
  }
}
