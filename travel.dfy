/**
 * The travel-request service of `tripmcp/travel_mcp.py`: the extractor that
 * turns a request into a destination and a traveler count, the mocked hotel
 * supplier, and the endpoint's choice between 400, 404 and the listings.
 * The named-entity recognizer is not modelled: its entities are an input.
 */
module Travel {
  import opened Wrappers
  import opened Text
  import opened TravelPatterns

  // ---------------------------------------------------------------------------
  // Extractor

  /** An entity the recognizer found: its surface text and its label (`tag`). */
  datatype Entity = Entity(text: string, tag: string)

  const GpeLabel: string := "GPE"

  datatype TravelInfo = TravelInfo(destination: Option<string>, numTravelers: int)

  /** Python truthiness of an optional string: neither None nor the empty string. */
  predicate Present(d: Option<string>) {
    d.Some? && d.value != ""
  }

  /** The text of the first entity labelled as a geopolitical place. */
  function FirstGpe(ents: seq<Entity>): Option<string> {
    if ents == [] then None
    else if ents[0].tag == GpeLabel then Some(ents[0].text)
    else FirstGpe(ents[1..])
  }

  lemma {:induction false} FirstGpeAt(ents: seq<Entity>, k: nat)
    requires k < |ents| && ents[k].tag == GpeLabel
    requires forall j :: 0 <= j < k ==> ents[j].tag != GpeLabel
    ensures FirstGpe(ents) == Some(ents[k].text)
  {
    if k > 0 {
      assert ents[0].tag != GpeLabel;
      assert forall j :: 0 <= j < k - 1 ==> ents[1..][j] == ents[j + 1];
      FirstGpeAt(ents[1..], k - 1);
    }
  }

  lemma {:induction false} FirstGpeNone(ents: seq<Entity>)
    ensures FirstGpe(ents).None? <==> forall j :: 0 <= j < |ents| ==> ents[j].tag != GpeLabel
  {
    if ents != [] {
      FirstGpeNone(ents[1..]);
      assert forall j :: 0 < j < |ents| ==> ents[j] == ents[1..][j - 1];
    }
  }

  /** Entities after the first place entity have no influence. */
  lemma {:induction false} LaterEntitiesIgnored(ents: seq<Entity>, later: seq<Entity>)
    requires FirstGpe(ents).Some?
    ensures FirstGpe(ents + later) == FirstGpe(ents)
  {
    assert (ents + later)[0] == ents[0];
    if ents[0].tag != GpeLabel {
      assert (ents + later)[1..] == ents[1..] + later;
      LaterEntitiesIgnored(ents[1..], later);
    }
  }

  /** `int(match.group(1))` for a match whose group is a digit run. */
  function GroupValue(t: string, m: Match): nat
    requires Spans(t, m) && AllIn(t, m.groupStart, m.groupEnd, Digits)
  {
    DecimalValue(t[m.groupStart..m.groupEnd])
  }

  /** `"friends" in match.group(0).lower()`. */
  predicate MentionsFriends(t: string, m: Match)
    requires Spans(t, m)
  {
    Contains(LowerStr(t[m.start..m.end]), "friends")
  }

  /** The traveler count by precedence: a plan-a-trip phrase with N friends
      gives N + 1; otherwise a with/for phrase gives N, plus one when it talks
      of friends; otherwise a bare N people/travelers/guests gives N;
      otherwise 1. */
  function TravelerCount(t: string): int {
    match Search(PlanTrip, t, 0)
    case Some(p) => GroupValue(t, p) + 1
    case None =>
      match Search(WithFor, t, 0)
      case Some(w) => GroupValue(t, w) + (if MentionsFriends(t, w) then 1 else 0)
      case None =>
        match Search(Generic, t, 0)
        case Some(g) => GroupValue(t, g)
        case None => 1
  }

  /** The destination fallback: the captured letters and spaces, stripped. */
  function CityCapture(t: string, m: Match): string
    requires Spans(t, m)
  {
    Strip(t[m.groupStart..m.groupEnd])
  }

  /** The destination: the first place entity when its text is non-empty,
      else the "in <city>" capture when the text has one, else whatever the
      recognizer gave (nothing, or an empty text). */
  function Destination(t: string, ents: seq<Entity>): Option<string> {
    var ner := FirstGpe(ents);
    if Present(ner) then ner
    else match Search(InCity, t, 0)
      case Some(c) => Some(CityCapture(t, c))
      case None => ner
  }

  /** `extract_travel_info`, step by step as the source does it: scan the
      entities for the first place, then let each count pattern overwrite the
      count in turn, then fall back to "in <city>". */
  method ExtractTravelInfo(text: string, ents: seq<Entity>) returns (info: TravelInfo)
    ensures info.destination == Destination(text, ents)
    ensures info.numTravelers == TravelerCount(text)
  {
    var destination: Option<string> := None;
    var numTravelers: int := 1;

    var i := 0;
    while i < |ents|
      invariant 0 <= i <= |ents|
      invariant destination == None
      invariant forall j :: 0 <= j < i ==> ents[j].tag != GpeLabel
    {
      if ents[i].tag == GpeLabel {
        destination := Some(ents[i].text);
        FirstGpeAt(ents, i);
        break;
      }
      i := i + 1;
    }
    if destination.None? {
      FirstGpeNone(ents);
    }

    var travelerMatch := Search(WithFor, text, 0);
    if travelerMatch.Some? {
      numTravelers := GroupValue(text, travelerMatch.value);
      if MentionsFriends(text, travelerMatch.value) {
        numTravelers := numTravelers + 1;
      }
    }

    var friendsMatch := Search(PlanTrip, text, 0);
    if friendsMatch.Some? {
      numTravelers := GroupValue(text, friendsMatch.value) + 1;
    }

    if travelerMatch.None? && friendsMatch.None? {
      var numberMatch := Search(Generic, text, 0);
      if numberMatch.Some? {
        numTravelers := GroupValue(text, numberMatch.value);
      }
    }

    if !Present(destination) {
      var destinationMatch := Search(InCity, text, 0);
      if destinationMatch.Some? {
        destination := Some(CityCapture(text, destinationMatch.value));
      }
    }

    info := TravelInfo(destination, numTravelers);
  }

  // ---------------------------------------------------------------------------
  // Precedence of the count rules

  /** `m` is a match of `p` in `t` and no match of `p` starts earlier. */
  ghost predicate Leftmost(p: Pattern, t: string, m: Match) {
    Shape(p, t, m) && forall m' :: Shape(p, t, m') ==> m.start <= m'.start
  }

  ghost predicate Absent(p: Pattern, t: string) {
    forall m :: !Shape(p, t, m)
  }

  /** For the three count patterns the search returns the leftmost match itself. */
  lemma SearchFindsLeftmost(p: Pattern, t: string, m: Match)
    requires p != InCity && Leftmost(p, t, m)
    ensures Search(p, t, 0) == Some(m)
    ensures Spans(t, m) && AllIn(t, m.groupStart, m.groupEnd, Digits)
  {
    MatchComplete(p, t, m);
    var s := Search(p, t, 0);
    assert s.Some? && s.value.start <= m.start by {
      assert MatchAt(p, t, m.start).Some?;
    }
    var c := s.value;
    assert MatchAt(p, t, c.start) == s;
    assert Shape(p, t, c);
    assert m.start <= c.start by {
      assert forall m' :: Shape(p, t, m') ==> m.start <= m'.start;
    }
  }

  /** With none of the three count patterns in the text, the count is 1. */
  lemma DefaultTravelerCount(t: string)
    requires Absent(WithFor, t) && Absent(PlanTrip, t) && Absent(Generic, t)
    ensures TravelerCount(t) == 1
  {
    SearchIsLeftmost(WithFor, t);
    SearchIsLeftmost(PlanTrip, t);
    SearchIsLeftmost(Generic, t);
  }

  /** A plan-a-trip phrase with N friends gives N + 1, whatever else the text says. */
  lemma PlanTripOverrides(t: string, m: Match)
    requires Leftmost(PlanTrip, t, m)
    ensures Spans(t, m) && AllIn(t, m.groupStart, m.groupEnd, Digits)
    ensures TravelerCount(t) == GroupValue(t, m) + 1
  {
    SearchFindsLeftmost(PlanTrip, t, m);
  }

  /** Without a plan-a-trip phrase, the first with/for phrase decides: N, or
      N + 1 when the phrase mentions friends. */
  lemma WithForRule(t: string, m: Match)
    requires Absent(PlanTrip, t) && Leftmost(WithFor, t, m)
    ensures Spans(t, m) && AllIn(t, m.groupStart, m.groupEnd, Digits)
    ensures TravelerCount(t) == GroupValue(t, m) + (if MentionsFriends(t, m) then 1 else 0)
  {
    SearchIsLeftmost(PlanTrip, t);
    SearchFindsLeftmost(WithFor, t, m);
  }

  /** The bare "N people" rule decides only when neither earlier rule applies. */
  lemma GenericRule(t: string, m: Match)
    requires Absent(PlanTrip, t) && Absent(WithFor, t) && Leftmost(Generic, t, m)
    ensures Spans(t, m) && AllIn(t, m.groupStart, m.groupEnd, Digits)
    ensures TravelerCount(t) == GroupValue(t, m)
  {
    SearchIsLeftmost(PlanTrip, t);
    SearchIsLeftmost(WithFor, t);
    SearchFindsLeftmost(Generic, t, m);
  }

  /** A with/for phrase mentions friends exactly when it ends in "friends",
      that is, when its noun is "of my friends" or "friends" and not "people"
      or "travelers". */
  lemma FriendsFlag(t: string, m: Match)
    requires Shape(WithFor, t, m)
    ensures Spans(t, m) && m.start + 7 <= m.end
    ensures MentionsFriends(t, m) <==> LiteralAt(t, m.end - 7, "friends")
  {
    MatchComplete(WithFor, t, m);
    var k :| m.groupEnd < k && AllIn(t, m.groupEnd, k, Spaces) && SomeLiteral(t, k, m.end, WithForNouns);
    var j :| 0 <= j < |WithForNouns| && LiteralAt(t, k, WithForNouns[j]) && m.end == k + |WithForNouns[j]|;
    if j < 2 {
      FriendsNounMentionsFriends(t, m, k, j);
    } else {
      OtherNounLacksFriends(t, m, k, j);
    }
  }

  lemma FriendsNounMentionsFriends(t: string, m: Match, k: nat, j: nat)
    requires Spans(t, m) && m.start < k
    requires j < 2 && LiteralAt(t, k, WithForNouns[j]) && m.end == k + |WithForNouns[j]|
    ensures LiteralAt(t, m.end - 7, "friends") && MentionsFriends(t, m)
  {
    var noun := WithForNouns[j];
    forall q | 0 <= q < 7 ensures Lower(t[m.end - 7 + q]) == Lower("friends"[q]) {
      var x := |noun| - 7 + q;
      assert noun[x] == "friends"[q];
      assert Lower(t[k + x]) == Lower(noun[x]);
    }
    var low := LowerStr(t[m.start..m.end]);
    var p := m.end - 7 - m.start;
    forall q | 0 <= q < 7 ensures low[p + q] == "friends"[q] {
      assert low[p + q] == Lower(t[m.end - 7 + q]);
    }
    assert low[p..p + 7] == "friends";
    assert OccursAt(low, p, "friends");
  }

  lemma OtherNounLacksFriends(t: string, m: Match, k: nat, j: nat)
    requires WithForShape(t, m) && Spans(t, m)
    requires m.groupEnd < k && AllIn(t, m.groupEnd, k, Spaces)
    requires 2 <= j < |WithForNouns| && LiteralAt(t, k, WithForNouns[j]) && m.end == k + |WithForNouns[j]|
    ensures m.start + 7 <= m.end
    ensures !LiteralAt(t, m.end - 7, "friends") && !MentionsFriends(t, m)
  {
    KeywordEndOfShape(t, m.start, m.groupStart);
    if j == 2 {
      assert IsSpace(t[k - 1]);
    } else {
      assert Lower(t[k + 2]) == Lower(WithForNouns[3][2]);
    }
    assert Lower(t[m.end - 7 + 0]) != Lower("friends"[0]);
    var low := LowerStr(t[m.start..m.end]);
    forall p | 0 <= p <= |low| - 7 ensures !OccursAt(low, p, "friends") {
      assert low[p] == Lower(t[m.start + p]);
      assert low[p + 1] == Lower(t[m.start + p + 1]);
      if p == 0 {
        ForIsTheOnlyF(t, m, k, j, m.start);
      } else {
        ForIsTheOnlyF(t, m, k, j, m.start + p);
      }
    }
  }

  /** In a with/for phrase whose noun is "people" or "travelers", the only
      character that lower-cases to 'f' is the first letter of "for". */
  lemma ForIsTheOnlyF(t: string, m: Match, k: nat, j: nat, x: nat)
    requires WithForShape(t, m) && Spans(t, m)
    requires m.groupEnd < k && AllIn(t, m.groupEnd, k, Spaces)
    requires 2 <= j < |WithForNouns| && LiteralAt(t, k, WithForNouns[j]) && m.end == k + |WithForNouns[j]|
    requires m.start <= x < m.end
    ensures x == m.start ==> Lower(t[x + 1]) != 'r'
    ensures x != m.start ==> Lower(t[x]) != 'f'
  {
    var kwEnd := KeywordEnd(t, m.start);
    KeywordEndOfShape(t, m.start, m.groupStart);
    var kw := if LiteralAt(t, m.start, "with") then "with" else "for";
    assert LiteralAt(t, m.start, kw);
    assert Lower(t[m.start + 1]) == Lower(kw[1]);
    if x < kwEnd {
      assert Lower(t[m.start + (x - m.start)]) == Lower(kw[x - m.start]);
    } else if x < m.groupStart {
      assert IsSpace(t[x]);
    } else if x < m.groupEnd {
      assert IsDigit(t[x]);
    } else if x < k {
      assert IsSpace(t[x]);
    } else {
      var noun := WithForNouns[j];
      assert Lower(t[k + (x - k)]) == Lower(noun[x - k]);
    }
  }

  // ---------------------------------------------------------------------------
  // Precedence of the destination rules

  /** The first place entity wins when its text is non-empty; the text and the
      later entities are ignored. */
  lemma GpeDestination(t: string, ents: seq<Entity>, k: nat)
    requires k < |ents| && ents[k].tag == GpeLabel && ents[k].text != ""
    requires forall j :: 0 <= j < k ==> ents[j].tag != GpeLabel
    ensures Destination(t, ents) == Some(ents[k].text)
  {
    FirstGpeAt(ents, k);
  }

  /** Without a usable place entity, the leftmost "in <city>" match gives the
      destination: its greedy capture with the white space at both ends removed. */
  lemma FallbackDestination(t: string, ents: seq<Entity>, m: Match)
    requires !Present(FirstGpe(ents)) && Leftmost(InCity, t, m)
    ensures Search(InCity, t, 0).Some?
    ensures var c := Search(InCity, t, 0).value;
              c.start == m.start && m.groupStart <= c.groupStart && m.groupEnd <= c.groupEnd
              && Destination(t, ents) == Some(CityCapture(t, c))
    ensures var d := Destination(t, ents).value;
              d == [] || (!IsSpace(d[0]) && !IsSpace(d[|d| - 1]))
  {
    SearchIsLeftmost(InCity, t);
    MatchComplete(InCity, t, m);
  }

  /** With no usable place entity and no "in <city>" match, the recognizer's
      answer stands: no destination, or an empty one. */
  lemma NoFallbackDestination(t: string, ents: seq<Entity>)
    requires !Present(FirstGpe(ents)) && Absent(InCity, t)
    ensures Destination(t, ents) == FirstGpe(ents)
    ensures FirstGpe(ents).None? ==> Destination(t, ents).None?
  {
    SearchIsLeftmost(InCity, t);
  }

  // ---------------------------------------------------------------------------
  // Mocked hotel supplier

  datatype Hotel = Hotel(name: string, price: string, link: string, rating: string)

  /** One canned listing: the name puts the city between `before` and
      `after`, the link ends with the lower-cased city. */
  function Listing(before: string, after: string, price: string, slug: string, rating: string, city: string): Hotel {
    Hotel(before + city + after, price, "http://example.com/" + slug + LowerStr(city), rating)
  }

  /** The six canned listings built from the city name. */
  function MockHotels(city: string): seq<Hotel> {
    [ Listing("Grand Hotel ", "", "150 USD", "grandhotel", "4.5/5", city),
      Listing("Comfy Inn ", "", "80 USD", "comfyinn", "4.0/5", city),
      Listing("Luxury Suites ", "", "300 USD", "luxurysuites", "4.8/5", city),
      Listing("Budget Stay ", "", "50 USD", "budgetstay", "3.5/5", city),
      Listing("The ", " Resort", "220 USD", "theresort", "4.2/5", city),
      Listing("Another Option ", "", "120 USD", "anotheroption", "4.1/5", city) ]
  }

  /** A rating written "X.Y/5". */
  predicate RatingText(s: string) {
    |s| == 5 && IsDigit(s[0]) && s[1] == '.' && IsDigit(s[2]) && s[3..] == "/5"
  }

  /** An amount in digits followed by " USD". */
  predicate PriceText(s: string) {
    |s| > 4 && EndsWith(s, " USD") && AllDigits(s[..|s| - 4])
  }

  /** What every listing says about `city`. */
  predicate ListingFor(h: Hotel, city: string) {
    Contains(h.name, city) && EndsWith(h.link, LowerStr(city)) && PriceText(h.price) && RatingText(h.rating)
  }

  lemma ListingIsFor(before: string, after: string, price: string, slug: string, rating: string, city: string)
    requires PriceText(price) && RatingText(rating)
    ensures ListingFor(Listing(before, after, price, slug, rating, city), city)
  {
    var name := before + city + after;
    assert name[|before|..|before| + |city|] == city;
    assert OccursAt(name, |before|, city);
    var link := "http://example.com/" + slug + LowerStr(city);
    assert link[|link| - |city|..] == LowerStr(city);
  }

  lemma MockListingFor(city: string, k: nat)
    requires k < 6
    ensures ListingFor(MockHotels(city)[k], city)
  {
    assert "150 USD"[..3] == "150" && "80 USD"[..2] == "80" && "300 USD"[..3] == "300";
    assert "50 USD"[..2] == "50" && "220 USD"[..3] == "220" && "120 USD"[..3] == "120";
    if k == 0 { ListingIsFor("Grand Hotel ", "", "150 USD", "grandhotel", "4.5/5", city); }
    else if k == 1 { ListingIsFor("Comfy Inn ", "", "80 USD", "comfyinn", "4.0/5", city); }
    else if k == 2 { ListingIsFor("Luxury Suites ", "", "300 USD", "luxurysuites", "4.8/5", city); }
    else if k == 3 { ListingIsFor("Budget Stay ", "", "50 USD", "budgetstay", "3.5/5", city); }
    else if k == 4 { ListingIsFor("The ", " Resort", "220 USD", "theresort", "4.2/5", city); }
    else { ListingIsFor("Another Option ", "", "120 USD", "anotheroption", "4.1/5", city); }
  }

  /** `get_hotel_suggestions_from_api`: the first five canned listings, all
      for `city`. The guest count is only printed by the source. */
  function HotelSuggestions(city: string, numGuests: int): (r: seq<Hotel>)
    ensures |r| == 5
    ensures forall k :: 0 <= k < 5 ==> ListingFor(r[k], city)
    ensures r + [MockHotels(city)[5]] == MockHotels(city)
  {
    forall k | 0 <= k < 5 ensures ListingFor(MockHotels(city)[k], city) {
      MockListingFor(city, k);
    }
    MockHotels(city)[..5]
  }

  // ---------------------------------------------------------------------------
  // Endpoint

  datatype Response = Listings(hotels: seq<Hotel>) | HttpError(status: int, detail: string)

  const MissingDestinationDetail: string :=
    "Could not extract destination city from the query. Please specify a city, for example: 'hotels in London'."

  function NotFoundDetail(destination: string): string {
    "Could not find hotel recommendations for " + destination + "."
  }

  /** The endpoint's decision once the query is extracted: 400 without a
      destination, 404 when the supplier has nothing, else its listings as they are. */
  function Respond(info: TravelInfo, suggest: (string, int) -> seq<Hotel>): (r: Response)
    ensures r == HttpError(400, MissingDestinationDetail) <==> !Present(info.destination)
    ensures r.HttpError? && r.status == 404 <==>
              Present(info.destination) && suggest(info.destination.value, info.numTravelers) == []
    ensures r.HttpError? ==> r == HttpError(400, MissingDestinationDetail)
                             || r == HttpError(404, NotFoundDetail(info.destination.value))
    ensures Present(info.destination) && suggest(info.destination.value, info.numTravelers) != [] ==>
              r == Listings(suggest(info.destination.value, info.numTravelers))
    ensures r.Listings? ==> Present(info.destination) && r.hotels != []
                            && r.hotels == suggest(info.destination.value, info.numTravelers)
  {
    if !Present(info.destination) then HttpError(400, MissingDestinationDetail)
    else
      var recommendations := suggest(info.destination.value, info.numTravelers);
      if recommendations == [] then HttpError(404, NotFoundDetail(info.destination.value))
      else Listings(recommendations)
  }

  /** `get_hotel_recommendations_endpoint` with the mocked supplier: 400 when
      no destination is found, and otherwise five listings for it; never 404. */
  method GetHotelRecommendations(query: string, ents: seq<Entity>) returns (r: Response)
    ensures r.HttpError? <==> !Present(Destination(query, ents))
    ensures r.HttpError? ==> r == HttpError(400, MissingDestinationDetail)
    ensures r.Listings? ==> |r.hotels| == 5
                            && forall k :: 0 <= k < 5 ==> ListingFor(r.hotels[k], Destination(query, ents).value)
    ensures r.Listings? ==> r.hotels == HotelSuggestions(Destination(query, ents).value, TravelerCount(query))
  {
    var info := ExtractTravelInfo(query, ents);
    r := Respond(info, HotelSuggestions);
  }
}
