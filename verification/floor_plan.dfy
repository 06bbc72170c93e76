/**
 * The floor plan of the detail page: room sizes by property type, the total area,
 * the floors named, and where the bedrooms are drawn on the 800 by 550 plan.
 */
module FloorPlan {
  import opened Wrappers
  import opened Text

  predicate IsHouse(kind: string) {
    kind == "House"
  }

  /** A room's width and depth in tenths of a metre. */
  datatype Dims = Dims(width: nat, depth: nat)

  function Area(d: Dims): nat {
    d.width * d.depth
  }

  /** A length in tenths of a metre, printed with one decimal. */
  function Tenths(n: nat): string {
    NatToString(n / 10) + "." + [DigitChar(n % 10)]
  }

  /** The size label, as ` 5.2m × 4.1m`. */
  function SizeText(d: Dims): string {
    " " + Tenths(d.width) + "m × " + Tenths(d.depth) + "m"
  }

  /** Below ten metres a size label is a space, `W.Wm × D.Dm`, one digit per place. */
  lemma SizeTextShape(d: Dims)
    requires d.width < 100 && d.depth < 100
    ensures SizeText(d) == [' ', DigitChar(d.width / 10), '.', DigitChar(d.width % 10), 'm', ' ', '×', ' ',
                            DigitChar(d.depth / 10), '.', DigitChar(d.depth % 10), 'm']
  {
    assert Tenths(d.width) == [DigitChar(d.width / 10), '.', DigitChar(d.width % 10)];
    assert Tenths(d.depth) == [DigitChar(d.depth / 10), '.', DigitChar(d.depth % 10)];
  }

  function LivingRoom(house: bool): Dims {
    if house then Dims(52, 41) else Dims(48, 36)
  }

  function Kitchen(house: bool): Dims {
    if house then Dims(45, 32) else Dims(32, 28)
  }

  function Bathroom(house: bool): Dims {
    if house then Dims(28, 22) else Dims(25, 20)
  }

  /** The size of bedroom `i` (from 0): the master, the second, then all the others alike. */
  function BedroomDims(house: bool, i: nat): Dims {
    if i == 0 then (if house then Dims(45, 38) else Dims(40, 35))
    else if i == 1 then (if house then Dims(38, 32) else Dims(35, 30))
    else (if house then Dims(35, 30) else Dims(32, 28))
  }

  /** The summed area of the first `n` bedrooms, in hundredths of a square metre. */
  function BedroomsArea(house: bool, n: nat): nat {
    if n == 0 then 0 else BedroomsArea(house, n - 1) + Area(BedroomDims(house, n - 1))
  }

  /** The summed area of every room `getRoomSizes` lists, in hundredths of a square metre. */
  function RoomsArea(house: bool, bedrooms: nat): nat {
    Area(LivingRoom(house)) + Area(Kitchen(house)) + Area(Bathroom(house)) + BedroomsArea(house, bedrooms)
  }

  /**
   * The total floor area in square metres: 90 plus 15 per bedroom for a house, 65 plus
   * 10 otherwise. `getRoomSizes` never sums the rooms; the ensures is a consistency
   * check between two figures the plan displays side by side (the total and the room
   * sizes), which the program neither computes nor promises: for any bedroom count the
   * total exceeds the summed area of the listed rooms.
   */
  function TotalArea(house: bool, bedrooms: int): (r: int)
    ensures bedrooms >= 0 ==> RoomsArea(house, bedrooms) < 100 * r
  {
    var r := if house then 90 + bedrooms * 15 else 65 + bedrooms * 10;
    if bedrooms < 0 then r
    else
      BedroomsAreaClosed(house, bedrooms);
      r
  }

  /**
   * The bedrooms' summed area in closed form: the master, the second, then a fixed
   * area for each further bedroom.
   */
  lemma {:induction false} BedroomsAreaClosed(house: bool, n: nat)
    ensures BedroomsArea(house, n) ==
      if n == 0 then 0
      else if n == 1 then (if house then 1710 else 1400)
      else if house then 1050 * n + 826
      else 896 * n + 658
    decreases n
  {
    if n > 0 {
      BedroomsAreaClosed(house, n - 1);
    }
  }

  function AreaText(house: bool, bedrooms: int): string {
    IntToString(TotalArea(house, bedrooms)) + "m²"
  }

  /** The object `getRoomSizes` builds. */
  datatype RoomSizes = RoomSizes(
    livingRoom: string,
    kitchen: string,
    bathroom: string,
    bedrooms: seq<string>,
    totalArea: string)

  /** `getRoomSizes`: the fixed rooms, then one size per bedroom pushed in a loop. */
  method GetRoomSizes(kind: string, bedrooms: int) returns (sizes: RoomSizes)
    ensures sizes.livingRoom == SizeText(LivingRoom(IsHouse(kind)))
    ensures sizes.kitchen == SizeText(Kitchen(IsHouse(kind)))
    ensures sizes.bathroom == SizeText(Bathroom(IsHouse(kind)))
    ensures sizes.totalArea == AreaText(IsHouse(kind), bedrooms)
    ensures |sizes.bedrooms| == if bedrooms < 0 then 0 else bedrooms
    ensures forall i :: 0 <= i < |sizes.bedrooms| ==> sizes.bedrooms[i] == SizeText(BedroomDims(IsHouse(kind), i))
  {
    var house := IsHouse(kind);
    sizes := RoomSizes(
      SizeText(LivingRoom(house)), SizeText(Kitchen(house)), SizeText(Bathroom(house)),
      [], AreaText(house, bedrooms));
    var i := 0;
    while i < bedrooms
      invariant 0 <= i <= (if bedrooms < 0 then 0 else bedrooms)
      invariant |sizes.bedrooms| == i
      invariant forall j :: 0 <= j < i ==> sizes.bedrooms[j] == SizeText(BedroomDims(house, j))
      invariant sizes.livingRoom == SizeText(LivingRoom(house)) && sizes.kitchen == SizeText(Kitchen(house))
      invariant sizes.bathroom == SizeText(Bathroom(house)) && sizes.totalArea == AreaText(house, bedrooms)
    {
      var size;
      if i == 0 {
        size := if house then Dims(45, 38) else Dims(40, 35);
      } else if i == 1 {
        size := if house then Dims(38, 32) else Dims(35, 30);
      } else {
        size := if house then Dims(35, 30) else Dims(32, 28);
      }
      sizes := sizes.(bedrooms := sizes.bedrooms + [SizeText(size)]);
      i := i + 1;
    }
  }

  /** The fixed rooms' labels are the texts the page prints. */
  lemma FixedRoomTexts()
    ensures SizeText(LivingRoom(true)) == " 5.2m × 4.1m" && SizeText(LivingRoom(false)) == " 4.8m × 3.6m"
    ensures SizeText(Kitchen(true)) == " 4.5m × 3.2m" && SizeText(Kitchen(false)) == " 3.2m × 2.8m"
    ensures SizeText(Bathroom(true)) == " 2.8m × 2.2m" && SizeText(Bathroom(false)) == " 2.5m × 2.0m"
  {
    SizeTextShape(LivingRoom(true));
    SizeTextShape(LivingRoom(false));
    SizeTextShape(Kitchen(true));
    SizeTextShape(Kitchen(false));
    SizeTextShape(Bathroom(true));
    SizeTextShape(Bathroom(false));
  }

  /** The bedrooms' labels are the texts the page prints. */
  lemma BedroomTexts(i: nat)
    ensures SizeText(BedroomDims(true, i)) ==
      if i == 0 then " 4.5m × 3.8m" else if i == 1 then " 3.8m × 3.2m" else " 3.5m × 3.0m"
    ensures SizeText(BedroomDims(false, i)) ==
      if i == 0 then " 4.0m × 3.5m" else if i == 1 then " 3.5m × 3.0m" else " 3.2m × 2.8m"
  {
    SizeTextShape(BedroomDims(true, i));
    SizeTextShape(BedroomDims(false, i));
  }

  /** The area label reads back with `parseInt` as the total area. */
  lemma AreaTextReadsBack(house: bool, bedrooms: int)
    ensures ParseInt(AreaText(house, bedrooms)) == Some(TotalArea(house, bedrooms))
  {
    var rest := "m²";
    assert AreaText(house, bedrooms) == IntToString(TotalArea(house, bedrooms)) + rest;
    ParseIntOfPrinted(TotalArea(house, bedrooms), rest);
  }

  /** Each extra bedroom adds 15 square metres to a house and 10 to anything else. */
  lemma AreaGrowsPerBedroom(house: bool, bedrooms: int)
    ensures TotalArea(house, bedrooms + 1) == TotalArea(house, bedrooms) + (if house then 15 else 10)
  {
  }

  /** The floors `getFloorLevels` names. */
  datatype Level = Ground | First | Second

  /**
   * The floors of the plan, lowest first: every plan has a first floor, only a house
   * has a ground floor, and only a house with four bedrooms or more a second.
   */
  function FloorLevels(kind: string, bedrooms: int): (r: seq<Level>)
    ensures First in r
    ensures Ground in r <==> IsHouse(kind)
    ensures Second in r <==> IsHouse(kind) && bedrooms >= 4
  {
    if IsHouse(kind) then (if bedrooms >= 4 then [Ground, First, Second] else [Ground, First])
    else [First]
  }

  function LevelName(l: Level): string {
    match l
    case Ground => "Ground"
    case First => "First"
    case Second => "Second"
  }

  /** An English list of floor names: commas, then `&` before the last, then ` Floor`. */
  function LevelsText(ls: seq<Level>): string
    requires ls != []
  {
    ListText(ls) + " Floor"
  }

  function ListText(ls: seq<Level>): string
    requires ls != []
  {
    if |ls| == 1 then LevelName(ls[0])
    else if |ls| == 2 then LevelName(ls[0]) + " & " + LevelName(ls[1])
    else LevelName(ls[0]) + ", " + ListText(ls[1..])
  }

  const OneFloor: string := "First Floor"
  const TwoFloors: string := "Ground & First Floor"
  const ThreeFloors: string := "Ground, First & Second Floor"

  /** The three texts the page shows are the renderings of the three floor lists. */
  lemma LevelTexts()
    ensures LevelsText([First]) == OneFloor
    ensures LevelsText([Ground, First]) == TwoFloors
    ensures LevelsText([Ground, First, Second]) == ThreeFloors
  {
    OneLevel();
    TwoLevels();
    ThreeLevels();
  }

  lemma OneLevel()
    ensures LevelsText([First]) == OneFloor
  {
  }

  lemma TwoLevels()
    ensures LevelsText([Ground, First]) == TwoFloors
  {
  }

  const UpperFloors: string := "First & Second"

  lemma ThreeLevels()
    ensures LevelsText([Ground, First, Second]) == ThreeFloors
  {
    assert [Ground, First, Second][1..] == [First, Second];
    UpperNames();
    assert ListText([Ground, First, Second]) == LevelName(Ground) + ", " + UpperFloors;
  }

  lemma UpperNames()
    ensures ListText([First, Second]) == UpperFloors
  {
  }

  /** `getFloorLevels`: the floor text the page prints, one of three fixed strings. */
  function FloorLevelText(kind: string, bedrooms: int): (r: string)
    ensures r == LevelsText(FloorLevels(kind, bedrooms))
  {
    LevelTexts();
    if IsHouse(kind) then (if bedrooms >= 4 then ThreeFloors else TwoFloors)
    else OneFloor
  }

  /** More bedrooms never take a floor away: the floors of the smaller plan are a prefix. */
  lemma FloorsGrowWithBedrooms(kind: string, b: int, c: int)
    requires b <= c
    ensures FloorLevels(kind, b) <= FloorLevels(kind, c)
  {
  }

  /** A rectangle of the plan, in its 800 by 550 coordinates. */
  datatype Rect = Rect(x: int, y: int, w: int, h: int)

  predicate Overlap(a: Rect, b: Rect) {
    a.x < b.x + b.w && b.x < a.x + a.w && a.y < b.y + b.h && b.y < a.y + a.h
  }

  predicate Inside(a: Rect, outer: Rect) {
    outer.x <= a.x && a.x + a.w <= outer.x + outer.w && outer.y <= a.y && a.y + a.h <= outer.y + outer.h
  }

  const Outline := Rect(40, 40, 720, 460)
  const Entrance := Rect(360, 480, 80, 20)
  const LivingRoomRect := Rect(80, 80, 220, 130)
  const KitchenRect := Rect(350, 80, 180, 130)
  const BathroomRect := Rect(550, 250, 90, 110)
  const HallwayRect := Rect(310, 210, 180, 40)

  /**
   * Where bedroom `i` is drawn: one row of up to three, or from four bedrooms a grid
   * two wide. A drawn bedroom never overlaps the living room, kitchen, bathroom or
   * hallway, and lies inside the outline exactly when it is in one of the first two
   * rows.
   */
  function BedroomRect(bedrooms: int, i: nat): (r: Rect)
    ensures i < bedrooms ==>
      && !Overlap(r, LivingRoomRect) && !Overlap(r, KitchenRect)
      && !Overlap(r, BathroomRect) && !Overlap(r, HallwayRect)
    ensures i < bedrooms ==> (Inside(r, Outline) <==> bedrooms <= 3 || i < 4)
  {
    if bedrooms <= 3 then Rect(80 + i * 160, 250, 140, 110)
    else Rect(80 + (i % 2) * 200, 250 + (i / 2) * 140, 140, 110)
  }

  /** No two bedrooms of a plan overlap. */
  lemma BedroomsDisjoint(bedrooms: int, i: nat, j: nat)
    requires i < j < bedrooms
    ensures !Overlap(BedroomRect(bedrooms, i), BedroomRect(bedrooms, j))
  {
    if bedrooms > 3 && i / 2 < j / 2 {
      assert (j / 2) * 140 >= (i / 2) * 140 + 140;
    }
  }

  /** All bedrooms lie inside the outline exactly when there are at most four. */
  lemma BedroomsInsideIff(bedrooms: int)
    ensures (forall i: nat :: i < bedrooms ==> Inside(BedroomRect(bedrooms, i), Outline)) <==> bedrooms <= 4
  {
    if bedrooms > 4 {
      assert !Inside(BedroomRect(bedrooms, 4), Outline);
    }
  }

  /** From four bedrooms on, the fourth bedroom is drawn over the entrance marker. */
  lemma FourthBedroomCoversEntrance(bedrooms: int)
    requires bedrooms >= 4
    ensures Overlap(BedroomRect(bedrooms, 3), Entrance)
    ensures forall i: nat :: i < bedrooms && i != 3 && i < 5 ==> !Overlap(BedroomRect(bedrooms, i), Entrance)
  {
  }

  /**
   * The label drawn in bedroom `i`: the master first, then `Bed 2`, `Bed 3`, and so
   * on. Only the first bedroom is the master, and every other label reads back, after
   * `Bed `, as the bedroom's number counted from one.
   */
  function BedroomLabel(i: nat): (r: string)
    ensures r == MasterLabel <==> i == 0
    ensures i > 0 ==> |r| > 4 && r[..4] == BedPrefix && ParseInt(r[4..]) == Some(i + 1)
  {
    if i == 0 then MasterLabel
    else
      BedLabelParts(i + 1);
      BedPrefix + IntToString(i + 1)
  }

  const MasterLabel: string := "Master"
  const BedPrefix: string := "Bed "

  /**
   * A numbered label splits after `Bed ` into its number and is never `Master`.
   */
  lemma BedLabelParts(k: nat)
    ensures var r := BedPrefix + IntToString(k);
      |r| > 4 && r[..4] == BedPrefix && ParseInt(r[4..]) == Some(k) && r != MasterLabel
  {
    var n := IntToString(k);
    var r := BedPrefix + n;
    assert r[4..] == n;
    ParseIntRoundTrip(k);
    assert r[0] == 'B' && MasterLabel[0] == 'M';
  }

  /** No two bedrooms carry the same label. */
  lemma BedroomLabelsDistinct(i: nat, j: nat)
    ensures BedroomLabel(i) == BedroomLabel(j) ==> i == j
  {
  }
}
