/**
 * The search page: the filter pipeline `handleSearch` runs over the catalog, and the
 * page state that decides whether the search results or the whole catalog are shown.
 */
module SearchPage {
  import opened Wrappers
  import opened Text
  import opened Sequences
  import opened Listing
  import opened SearchForm

  /** One `results.filter(..)` step of the pipeline. */
  datatype Step =
    | KindIs(kind: string)
    | AtLeastFiveBedrooms
    | BedroomsAre(count: Option<int>)   // `None`: `parseInt` gave NaN, which equals nothing
    | PriceAtLeast(bound: Option<int>)  // `None`: NaN, which no comparison satisfies
    | PriceAtMost(bound: Option<int>)
    | PlaceContains(needle: string)     // already lower-cased
    | AddedIn(month: string)

  predicate Keeps(step: Step, p: Property) {
    match step
    case KindIs(k) => p.kind == k
    case AtLeastFiveBedrooms => p.bedrooms >= 5
    case BedroomsAre(n) => n == Some(p.bedrooms)
    case PriceAtLeast(b) => b.Some? && p.price >= b.value
    case PriceAtMost(b) => b.Some? && p.price <= b.value
    case PlaceContains(q) => Contains(Lower(p.location), q) || Contains(Lower(p.postcode), q)
    case AddedIn(m) => p.added.month == m
  }

  function KindSteps(c: Criteria): seq<Step> {
    if c.kind != "" && c.kind != "any" then [KindIs(c.kind)] else []
  }

  function BedroomSteps(c: Criteria): seq<Step> {
    if c.bedrooms != "" && c.bedrooms != "any" then
      [if c.bedrooms == "5" then AtLeastFiveBedrooms else BedroomsAre(ParseInt(c.bedrooms))]
    else []
  }

  function MinPriceSteps(c: Criteria): seq<Step> {
    if c.minPrice != "" then [PriceAtLeast(ParseInt(c.minPrice))] else []
  }

  function MaxPriceSteps(c: Criteria): seq<Step> {
    if c.maxPrice != "" then [PriceAtMost(ParseInt(c.maxPrice))] else []
  }

  function LocationSteps(c: Criteria): seq<Step> {
    if c.location != "" then [PlaceContains(Lower(c.location))] else []
  }

  function MonthSteps(c: Criteria): seq<Step> {
    if c.addedMonth != "" && c.addedMonth != "any" then [AddedIn(c.addedMonth)] else []
  }

  /** The steps a criteria record switches on, in the order `handleSearch` applies them. */
  function Steps(c: Criteria): seq<Step> {
    KindSteps(c) + BedroomSteps(c) + MinPriceSteps(c) + MaxPriceSteps(c) + LocationSteps(c) + MonthSteps(c)
  }

  /** The listing passes every one of the steps. */
  predicate KeepsAll(steps: seq<Step>, p: Property) {
    forall s :: s in steps ==> Keeps(s, p)
  }

  /** Applies the steps one after the other, each to the previous result. */
  function RunSteps(ps: seq<Property>, steps: seq<Step>): seq<Property>
    decreases |steps|
  {
    if steps == [] then ps else RunSteps(Filter(ps, p => Keeps(steps[0], p)), steps[1..])
  }

  /**
   * `handleSearch`: strip `<` and `>` from the location, then run the active steps
   * over the catalog. The pipeline keeps, in catalog order, exactly the listings that
   * meet every criterion of the reference definition below.
   */
  function HandleSearch(catalog: seq<Property>, c: Criteria): (r: seq<Property>)
    ensures r == Filter(catalog, p => Matches(c, p))
    ensures IsSubseq(r, catalog)
    ensures forall p :: p in r <==> p in catalog && Matches(c, p)
  {
    var steps := Steps(c.(location := RemoveAngles(c.location)));
    RunStepsIsFilter(catalog, steps);
    forall p ensures KeepsAll(steps, p) == Matches(c, p) {
      StepsMeanMatches(c, p);
    }
    FilterExtensional(catalog, p => KeepsAll(steps, p), p => Matches(c, p));
    RunSteps(catalog, steps)
  }

  // Reference definition: what a listing must satisfy, criterion by criterion.

  predicate KindMatches(c: Criteria, p: Property) {
    c.kind == "" || c.kind == "any" || p.kind == c.kind
  }

  predicate BedroomsMatch(c: Criteria, p: Property) {
    || c.bedrooms == "" || c.bedrooms == "any"
    || (c.bedrooms == "5" && p.bedrooms >= 5)
    || (c.bedrooms != "5" && ParseInt(c.bedrooms) == Some(p.bedrooms))
  }

  predicate AboveMin(c: Criteria, p: Property) {
    c.minPrice == "" || (ParseInt(c.minPrice).Some? && ParseInt(c.minPrice).value <= p.price)
  }

  predicate BelowMax(c: Criteria, p: Property) {
    c.maxPrice == "" || (ParseInt(c.maxPrice).Some? && p.price <= ParseInt(c.maxPrice).value)
  }

  /** The location text without `<` and `>`, lower-cased, occurs in the location or the postcode. */
  predicate LocationMatches(c: Criteria, p: Property) {
    var q := Lower(RemoveAngles(c.location));
    q == "" || Contains(Lower(p.location), q) || Contains(Lower(p.postcode), q)
  }

  predicate MonthMatches(c: Criteria, p: Property) {
    c.addedMonth == "" || c.addedMonth == "any" || p.added.month == c.addedMonth
  }

  predicate Matches(c: Criteria, p: Property) {
    KindMatches(c, p) && BedroomsMatch(c, p) && AboveMin(c, p) && BelowMax(c, p) && LocationMatches(c, p) && MonthMatches(c, p)
  }

  /** Running steps in sequence is one filter by all of them together. */
  lemma {:induction false} RunStepsIsFilter(ps: seq<Property>, steps: seq<Step>)
    ensures RunSteps(ps, steps) == Filter(ps, p => KeepsAll(steps, p))
    decreases |steps|
  {
    if steps == [] {
      FilterAll(ps, p => KeepsAll(steps, p));
    } else {
      var first := p => Keeps(steps[0], p);
      var rest := p => KeepsAll(steps[1..], p);
      var all := p => KeepsAll(steps, p);
      RunStepsIsFilter(Filter(ps, first), steps[1..]);
      forall x ensures all(x) == (first(x) && rest(x)) {
        KeepsAllCons(steps, x);
      }
      FilterFilter(ps, first, rest, all);
    }
  }

  lemma KeepsAllCons(steps: seq<Step>, p: Property)
    requires steps != []
    ensures KeepsAll(steps, p) <==> Keeps(steps[0], p) && KeepsAll(steps[1..], p)
  {
    assert steps == [steps[0]] + steps[1..];
  }

  /** The filter steps commute: only which steps are active matters, not their order. */
  lemma StepOrderIrrelevant(ps: seq<Property>, a: seq<Step>, b: seq<Step>)
    requires forall s :: s in a <==> s in b
    ensures RunSteps(ps, a) == RunSteps(ps, b)
  {
    RunStepsIsFilter(ps, a);
    RunStepsIsFilter(ps, b);
    FilterExtensional(ps, p => KeepsAll(a, p), p => KeepsAll(b, p));
  }

  lemma KeepsAllConcat(a: seq<Step>, b: seq<Step>, p: Property)
    ensures KeepsAll(a + b, p) <==> KeepsAll(a, p) && KeepsAll(b, p)
  {
  }

  lemma KeepsAllSingle(step: Step, p: Property)
    ensures KeepsAll([step], p) <==> Keeps(step, p)
  {
    assert step in [step];
  }

  lemma LowerEmptyIff(s: string)
    ensures Lower(s) == "" <==> s == ""
  {
  }

  lemma KindStepsMean(c: Criteria, p: Property)
    ensures KeepsAll(KindSteps(c), p) <==> KindMatches(c, p)
  {
    KeepsAllSingle(KindIs(c.kind), p);
  }

  lemma BedroomStepsMean(c: Criteria, p: Property)
    ensures KeepsAll(BedroomSteps(c), p) <==> BedroomsMatch(c, p)
  {
    if c.bedrooms != "" && c.bedrooms != "any" {
      if c.bedrooms == "5" {
        KeepsAllSingle(AtLeastFiveBedrooms, p);
      } else {
        var n := ParseInt(c.bedrooms);
        assert BedroomSteps(c) == [BedroomsAre(n)];
        KeepsAllSingle(BedroomsAre(n), p);
      }
    }
  }

  lemma MinPriceStepsMean(c: Criteria, p: Property)
    ensures KeepsAll(MinPriceSteps(c), p) <==> AboveMin(c, p)
  {
    if c.minPrice != "" {
      var b := ParseInt(c.minPrice);
      assert MinPriceSteps(c) == [PriceAtLeast(b)];
      KeepsAllSingle(PriceAtLeast(b), p);
    }
  }

  lemma MaxPriceStepsMean(c: Criteria, p: Property)
    ensures KeepsAll(MaxPriceSteps(c), p) <==> BelowMax(c, p)
  {
    if c.maxPrice != "" {
      var b := ParseInt(c.maxPrice);
      assert MaxPriceSteps(c) == [PriceAtMost(b)];
      KeepsAllSingle(PriceAtMost(b), p);
    }
  }

  lemma LocationStepsMean(c: Criteria, p: Property)
    ensures KeepsAll(LocationSteps(c.(location := RemoveAngles(c.location))), p) <==> LocationMatches(c, p)
  {
    LowerEmptyIff(RemoveAngles(c.location));
    KeepsAllSingle(PlaceContains(Lower(RemoveAngles(c.location))), p);
  }

  lemma MonthStepsMean(c: Criteria, p: Property)
    ensures KeepsAll(MonthSteps(c), p) <==> MonthMatches(c, p)
  {
    KeepsAllSingle(AddedIn(c.addedMonth), p);
  }

  /** A listing passes all the active steps exactly when it meets every criterion. */
  lemma StepsMeanMatches(c: Criteria, p: Property)
    ensures KeepsAll(Steps(c.(location := RemoveAngles(c.location))), p) <==> Matches(c, p)
  {
    var d := c.(location := RemoveAngles(c.location));
    var front := KindSteps(d) + BedroomSteps(d);
    KeepsAllConcat(front + MinPriceSteps(d) + MaxPriceSteps(d) + LocationSteps(d), MonthSteps(d), p);
    KeepsAllConcat(front + MinPriceSteps(d) + MaxPriceSteps(d), LocationSteps(d), p);
    KeepsAllConcat(front + MinPriceSteps(d), MaxPriceSteps(d), p);
    KeepsAllConcat(front, MinPriceSteps(d), p);
    KeepsAllConcat(KindSteps(d), BedroomSteps(d), p);
    KindStepsMean(d, p);
    BedroomStepsMean(d, p);
    MinPriceStepsMean(d, p);
    MaxPriceStepsMean(d, p);
    LocationStepsMean(c, p);
    MonthStepsMean(d, p);
  }

  /** Submitting a freshly reset form shows the whole catalog. */
  lemma DefaultsKeepCatalog(catalog: seq<Property>, f: Criteria)
    ensures HandleSearch(catalog, HandleSubmit(HandleReset(f))) == catalog
  {
    var c := HandleSubmit(HandleReset(f));
    assert c == InitialForm;
    FilterAll(catalog, p => Matches(c, p));
  }

  /** The bedroom choices of the form, read as bands. */
  datatype Band = AnyCount | Exactly(n: int) | FiveOrMore

  /** The band the `k`-th entry of the bedroom list stands for. */
  function BandAt(k: nat): Band
    requires k < |BedroomOptions|
  {
    if k == 0 then AnyCount else if k == 5 then FiveOrMore else Exactly(k)
  }

  predicate InBand(band: Band, bedrooms: int) {
    match band
    case AnyCount => true
    case Exactly(n) => bedrooms == n
    case FiveOrMore => bedrooms >= 5
  }

  /** `'5'` keeps five bedrooms or more; `'1'` to `'4'` keep that exact count; `'any'` keeps all. */
  lemma BedroomChoiceIsBand(c: Criteria, p: Property, k: nat)
    requires k < |BedroomOptions| && c.bedrooms == BedroomOptions[k]
    ensures BedroomsMatch(c, p) <==> InBand(BandAt(k), p.bedrooms)
  {
    if 1 <= k <= 4 {
      BedroomOptionPrinted(k);
      ExactBedrooms(c, p, k);
    }
  }

  lemma BedroomOptionPrinted(k: nat)
    requires 1 <= k <= 4
    ensures BedroomOptions[k] == [DigitChar(k)]
  {
  }

  lemma ExactBedrooms(c: Criteria, p: Property, k: nat)
    requires 1 <= k <= 4 && c.bedrooms == [DigitChar(k)]
    ensures BedroomsMatch(c, p) <==> p.bedrooms == k
  {
    assert c.bedrooms == IntToString(k);
    ParseIntRoundTrip(k);
  }

  /** A lower price bound above the upper one leaves nothing. */
  lemma InvertedPriceRangeIsEmpty(catalog: seq<Property>, c: Criteria, lo: int, hi: int)
    requires ParseInt(c.minPrice) == Some(lo) && ParseInt(c.maxPrice) == Some(hi) && lo > hi
    ensures HandleSearch(catalog, c) == []
  {
    FilterNone(catalog, p => Matches(c, p));
  }

  /**
   * A non-empty price bound that `parseInt` cannot read compares as NaN, so it leaves
   * nothing rather than switching the bound off; likewise a bedroom value other than
   * `'5'` that does not parse.
   */
  lemma UnreadableBoundIsEmpty(catalog: seq<Property>, c: Criteria)
    requires
      || (c.minPrice != "" && ParseInt(c.minPrice) == None)
      || (c.maxPrice != "" && ParseInt(c.maxPrice) == None)
      || (c.bedrooms !in ["", "any", "5"] && ParseInt(c.bedrooms) == None)
    ensures HandleSearch(catalog, c) == []
  {
    FilterNone(catalog, p => Matches(c, p));
  }

  lemma {:induction false} LowerRemoveAnglesCommute(s: string)
    ensures Lower(RemoveAngles(s)) == RemoveAngles(Lower(s))
  {
    if s != [] {
      var head := if s[0] == '<' || s[0] == '>' then [] else [s[0]];
      LowerRemoveAnglesCommute(s[1..]);
      LowerConcat(head, RemoveAngles(s[1..]));
      assert Lower(s)[1..] == Lower(s[1..]);
      assert RemoveAngles(Lower(s)) == Lower(head) + RemoveAngles(Lower(s)[1..]);
    }
  }

  /** The location criterion ignores letter case: texts equal up to case select the same listings. */
  lemma LocationIgnoresCase(c: Criteria, d: Criteria, p: Property)
    requires Lower(c.location) == Lower(d.location)
    ensures LocationMatches(c, p) <==> LocationMatches(d, p)
  {
    LowerRemoveAnglesCommute(c.location);
    LowerRemoveAnglesCommute(d.location);
  }

  /** Text without `<` and `>` that occurs in a listing's location or postcode, in any case, finds it. */
  lemma LocationFindsOccurrence(c: Criteria, p: Property)
    requires forall i :: 0 <= i < |c.location| ==> c.location[i] != '<' && c.location[i] != '>'
    requires Contains(p.location, c.location) || Contains(p.postcode, c.location)
    ensures LocationMatches(c, p)
  {
    RemoveAnglesNoop(c.location);
    if Contains(p.location, c.location) {
      ContainsLower(p.location, c.location);
    } else {
      ContainsLower(p.postcode, c.location);
    }
  }

  /**
   * A search by type, an exact bedroom count and a price range, such as `House`,
   * `'3'`, `'200000'` and `'500000'`, keeps exactly the listings of that type with
   * that many bedrooms whose price lies in the range, bounds included.
   */
  lemma TypicalSearch(catalog: seq<Property>, kind: string, n: nat, lo: nat, hi: nat)
    requires kind != "" && kind != "any" && 1 <= n <= 4
    ensures var c := Criteria(kind, IntToString(n), IntToString(lo), IntToString(hi), "", "any");
      forall p :: p in HandleSearch(catalog, c) <==>
        p in catalog && p.kind == kind && p.bedrooms == n && lo <= p.price <= hi
  {
    var c := Criteria(kind, IntToString(n), IntToString(lo), IntToString(hi), "", "any");
    assert c.bedrooms == [DigitChar(n)];
    ParseIntRoundTrip(n);
    ParseIntRoundTrip(lo);
    ParseIntRoundTrip(hi);
    forall p ensures Matches(c, p) <==> p.kind == kind && p.bedrooms == n && lo <= p.price <= hi {
      ScenarioMatches(c, p, n, lo, hi);
    }
  }

  /** With no location and no month, the criteria reduce to a kind, a bedroom count and a price range. */
  lemma ScenarioMatches(c: Criteria, p: Property, n: int, lo: int, hi: int)
    requires c.kind != "" && c.kind != "any" && c.bedrooms != "any" && c.bedrooms != "5" && c.location == "" && c.addedMonth == "any"
    requires ParseInt(c.bedrooms) == Some(n) && ParseInt(c.minPrice) == Some(lo) && ParseInt(c.maxPrice) == Some(hi)
    ensures Matches(c, p) <==> p.kind == c.kind && p.bedrooms == n && lo <= p.price <= hi
  {
    ParseIntEmpty();
  }

  /** What the page shows: the last search's results while searching, otherwise the catalog. */
  datatype Page = Page(results: seq<Property>, isSearching: bool)

  function Displayed(page: Page, catalog: seq<Property>): seq<Property> {
    if page.isSearching then page.results else catalog
  }

  function OpenPage(catalog: seq<Property>): (r: Page)
    ensures Displayed(r, catalog) == catalog
  {
    Page(catalog, false)
  }

  /** Submitting the form shows the listings that match it. */
  function Search(page: Page, catalog: seq<Property>, c: Criteria): (r: Page)
    ensures r.isSearching
    ensures forall p :: p in Displayed(r, catalog) <==> p in catalog && Matches(c, p)
  {
    Page(HandleSearch(catalog, c), true)
  }

  /** `handleClearSearch`: the whole catalog is shown again, whatever was searched before. */
  function ClearSearch(page: Page, catalog: seq<Property>): (r: Page)
    ensures !r.isSearching && Displayed(r, catalog) == catalog && r.results == catalog
  {
    Page(catalog, false)
  }
}
