/**
 * Three queries worked through the extractor: a query that shows the count
 * can be 0, the friends example the source's own comment gives, and the
 * "in <city>" fallback.
 */
module TravelExamples {
  import opened Wrappers
  import opened Text
  import opened TravelPatterns
  import opened Travel

  const ZeroPeopleQuery: string := "0 people"
  const FriendsQuery: string := "with 5 of my friends"

  lemma ZeroPeopleNoPlanTrip()
    ensures Search(PlanTrip, ZeroPeopleQuery, 0).None?
  {
    var t := ZeroPeopleQuery;
    forall i | 0 <= i <= |t|
      ensures MatchAt(PlanTrip, t, i).None?
    {
      assert !LiteralAt(t, i, PlanTripPrefix);
    }
    SearchNone(PlanTrip, t, 0);
  }

  lemma ZeroPeopleNoWithFor()
    ensures Search(WithFor, ZeroPeopleQuery, 0).None?
  {
    var t := ZeroPeopleQuery;
    forall i | 0 <= i <= |t|
      ensures MatchAt(WithFor, t, i).None?
    {
      LiteralInitial(t, i, "with");
      LiteralInitial(t, i, "for");
      if i < |t| {
        assert Lower(t[i]) != 'w' && Lower(t[i]) != 'f';
      }
    }
    SearchNone(WithFor, t, 0);
  }

  lemma ZeroPeopleGeneric()
    ensures Search(Generic, ZeroPeopleQuery, 0) == Some(Match(0, 0, 1, 8))
  {
    var t := ZeroPeopleQuery;
    assert RunEnd(t, 0, Digits) == 1;
    assert RunEnd(t, 1, Spaces) == 2;
    assert LiteralAt(t, 2, "people");
    assert FirstLiteralEnd(t, 2, GenericNouns) == Some(8);
  }

  /** "0 people" gives a party of 0: the count is not bounded below by 1. */
  lemma ZeroPeople()
    ensures TravelerCount(ZeroPeopleQuery) == 0
  {
    ZeroPeopleNoPlanTrip();
    ZeroPeopleNoWithFor();
    ZeroPeopleGeneric();
    assert ZeroPeopleQuery[0..1] == "0";
  }

  lemma FriendsNoPlanTrip()
    ensures Search(PlanTrip, FriendsQuery, 0).None?
  {
    var t := FriendsQuery;
    forall i | 0 <= i <= |t|
      ensures MatchAt(PlanTrip, t, i).None?
    {
      LiteralInitial(t, i, PlanTripPrefix);
      if i < |t| {
        assert Lower(t[i]) != 'p';
      }
    }
    SearchNone(PlanTrip, t, 0);
  }

  lemma FriendsWithFor()
    ensures Search(WithFor, FriendsQuery, 0) == Some(Match(0, 5, 6, 20))
  {
    var t := FriendsQuery;
    assert KeywordEnd(t, 0) == 4;
    assert RunEnd(t, 4, Spaces) == 5;
    assert RunEnd(t, 5, Digits) == 6;
    assert RunEnd(t, 6, Spaces) == 7;
    assert LiteralAt(t, 7, "of my friends");
    assert FirstLiteralEnd(t, 7, WithForNouns) == Some(20);
  }

  lemma FriendsMentioned()
    ensures Spans(FriendsQuery, Match(0, 5, 6, 20))
    ensures MentionsFriends(FriendsQuery, Match(0, 5, 6, 20))
  {
    var low := LowerStr(FriendsQuery[0..20]);
    assert low[13..20] == "friends";
    assert OccursAt(low, 13, "friends");
  }

  /** "with 5 of my friends" gives a party of 6: the five friends and the user. */
  lemma FiveFriends()
    ensures TravelerCount(FriendsQuery) == 6
  {
    FriendsNoPlanTrip();
    FriendsWithFor();
    FriendsMentioned();
    assert FriendsQuery[5..6] == "5";
  }

  /** Where a word occurs, the text agrees with the word's first two characters. */
  lemma LiteralSecond(t: string, i: nat, lit: string)
    ensures LiteralAt(t, i, lit) && |lit| >= 2 ==>
              Lower(t[i]) == Lower(lit[0]) && Lower(t[i + 1]) == Lower(lit[1])
  {
    if LiteralAt(t, i, lit) && |lit| >= 2 {
      assert Lower(t[i + 0]) == Lower(lit[0]);
    }
  }

  const TokyoQuery: string := "I want to relax in Tokyo."

  lemma TokyoInCity()
    ensures Search(InCity, TokyoQuery, 0) == Some(Match(16, 19, 24, 25))
  {
    var t := TokyoQuery;
    forall i | 0 <= i < 16
      ensures MatchAt(InCity, t, i).None?
    {
      LiteralSecond(t, i, "in");
      assert Lower(t[i]) != 'i' || Lower(t[i + 1]) != 'n';
    }
    assert LiteralAt(t, 16, "in");
    assert RunEnd(t, 18, Spaces) == 19;
    assert RunEnd(t, 18, LettersOrSpaces) == 24;
    assert MatchAt(InCity, t, 16) == Some(Match(16, 19, 24, 25));
    SearchFrom(InCity, t, 0, 16);
  }

  /** With no place entity, "I want to relax in Tokyo." falls back to the
      "in <city>" capture and gives Tokyo. */
  lemma TokyoDestination()
    ensures Destination(TokyoQuery, []) == Some("Tokyo")
  {
    TokyoInCity();
    TokyoCapture();
    CapturedDestination(TokyoQuery, [], Match(16, 19, 24, 25));
  }

  lemma TokyoCapture()
    ensures Spans(TokyoQuery, Match(16, 19, 24, 25))
    ensures CityCapture(TokyoQuery, Match(16, 19, 24, 25)) == "Tokyo"
  {
    assert TokyoQuery[19..24] == "Tokyo";
    TokyoStripped();
  }

  lemma CapturedDestination(t: string, ents: seq<Entity>, c: Match)
    requires ents == [] && Search(InCity, t, 0) == Some(c)
    ensures Spans(t, c) && Destination(t, ents) == Some(CityCapture(t, c))
  {
  }

  lemma TokyoStripped()
    ensures Strip("Tokyo") == "Tokyo"
  {
    assert RunEnd("Tokyo", 0, Spaces) == 0;
    assert TrailEnd("Tokyo", 0, 5) == 5;
  }
}
