/** A listing of the bundled catalog, as the search, detail and favorites screens receive it. */
module Listing {
  import opened JsValues

  datatype AddedDate = AddedDate(day: int, month: string, year: int)

  datatype Property = Property(
    id: string,
    kind: string,        // the `type` field: "House" or "Flat"
    bedrooms: int,
    price: int,
    tenure: string,
    description: string,
    location: string,
    postcode: string,
    images: seq<string>,
    floorPlan: string,
    added: AddedDate)

  /** The `added` object of a listing. */
  function DateToJs(d: AddedDate): JsValue {
    Obj(map["day" := Num(d.day), "month" := Str(d.month), "year" := Num(d.year)])
  }

  /** A listing as the plain object the components pass around. */
  function ToJs(p: Property): (v: JsValue)
    ensures v.Obj? && Get(v, "id") == Str(p.id) && Get(v, "added") == DateToJs(p.added)
  {
    Obj(map[
      "id" := Str(p.id),
      "type" := Str(p.kind),
      "bedrooms" := Num(p.bedrooms),
      "price" := Num(p.price),
      "tenure" := Str(p.tenure),
      "description" := Str(p.description),
      "location" := Str(p.location),
      "postcode" := Str(p.postcode),
      "images" := Arr(seq(|p.images|, i requires 0 <= i < |p.images| => Str(p.images[i]))),
      "floorPlan" := Str(p.floorPlan),
      "added" := DateToJs(p.added)])
  }

  /** The fields `validatePropertyData` looks at, as a listing's object carries them. */
  lemma ToJsRequiredFields(p: Property)
    ensures var f := ToJs(p).fields;
      && "id" in f && f["id"] == Str(p.id)
      && "type" in f && f["type"] == Str(p.kind)
      && "bedrooms" in f && f["bedrooms"] == Num(p.bedrooms)
      && "price" in f && f["price"] == Num(p.price)
      && "location" in f && f["location"] == Str(p.location)
      && "description" in f && f["description"] == Str(p.description)
  {
  }
}
