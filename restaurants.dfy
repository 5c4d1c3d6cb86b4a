/**
  Normalisation of an Overpass API response into restaurant records.

  The response body is a JSON object that may hold an "elements" list; each
  element may hold a "tags" object mapping tag keys to tag values. Every
  element becomes exactly one record with the five columns Name, Cuisine,
  Address, Phone and Rating, each read from a fixed tag key with a fixed
  fallback, the address being "<street>, <city>".
 */
module Restaurants {
  import opened Wrappers

  /** The tags of one OpenStreetMap element. */
  type Tags = map<string, string>

  /** One entry of the response's "elements" list; `tags` is None when the entry has no "tags" key. */
  datatype Element = Element(tags: Option<Tags>)

  /** The parsed response body; `elements` is None when it has no "elements" key. */
  datatype Response = Response(elements: Option<seq<Element>>)

  /** One output row. */
  datatype Record = Record(name: string, cuisine: string, address: string, phone: string, rating: string)

  // The tag keys that are read.
  const NameKey: string := "name"
  const CuisineKey: string := "cuisine"
  const StreetKey: string := "addr:street"
  const CityKey: string := "addr:city"
  const PhoneKey: string := "contact:phone"
  const RatingKey: string := "rating"

  const ReadKeys: set<string> := {NameKey, CuisineKey, StreetKey, CityKey, PhoneKey, RatingKey}

  // The fallbacks used when a key is missing.
  const Unknown: string := "Unknown"
  const NotSpecified: string := "Not specified"
  const NotAvailable: string := "N/A"

  /** What separates street from city in the address. */
  const Separator: string := ", "

  /** The column names of a row, in the order the row is built. */
  const Columns: seq<string> := ["Name", "Cuisine", "Address", "Phone", "Rating"]

  /** The record of an element that carries no tags at all. */
  const DefaultRecord: Record := Record("Unknown", "Not specified", "Unknown, Unknown", "N/A", "N/A")

  /** A dictionary lookup with a fallback, as `tags.get(key, default)`. */
  function Get(tags: Tags, key: string, default: string): string
  {
    if key in tags then tags[key] else default
  }

  /** The tags an element contributes: an element without a "tags" key counts as having none. */
  function TagsOf(e: Element): Tags
  {
    match e.tags
    case None => map[]
    case Some(t) => t
  }

  /** The elements of a response: a response without an "elements" key counts as having none. */
  function ElementsOf(data: Response): seq<Element>
  {
    match data.elements
    case None => []
    case Some(es) => es
  }

  /** The record built from one element's tags. */
  function RecordOf(tags: Tags): Record
  {
    Record(
      Get(tags, NameKey, Unknown),
      Get(tags, CuisineKey, NotSpecified),
      Get(tags, StreetKey, Unknown) + Separator + Get(tags, CityKey, Unknown),
      Get(tags, PhoneKey, NotAvailable),
      Get(tags, RatingKey, NotAvailable))
  }

  /** The record built from one element. */
  function RecordFor(e: Element): Record
  {
    RecordOf(TagsOf(e))
  }

  /** The records of a list of elements, one per element, in order. */
  function Normalise(es: seq<Element>): seq<Record>
  {
    if es == [] then [] else Normalise(es[..|es| - 1]) + [RecordFor(es[|es| - 1])]
  }

  /**
    `process_data`: walks the elements of the response in order and appends
    one record per element to a list that starts empty.
   */
  method ProcessData(osmData: Response) returns (restaurants: seq<Record>)
    ensures restaurants == Normalise(ElementsOf(osmData))
    ensures |restaurants| == |ElementsOf(osmData)|
    ensures forall i :: 0 <= i < |restaurants| ==> restaurants[i] == RecordFor(ElementsOf(osmData)[i])
    ensures osmData.elements.None? ==> restaurants == []
  {
    var elements := ElementsOf(osmData);
    restaurants := [];
    var i := 0;
    while i < |elements|
      invariant 0 <= i <= |elements|
      invariant restaurants == Normalise(elements[..i])
    {
      var element := elements[i];
      var tags := TagsOf(element);
      assert elements[..i + 1][..i] == elements[..i];
      restaurants := restaurants + [RecordOf(tags)];
      i := i + 1;
    }
    assert elements[..i] == elements;
    NormaliseLength(elements);
    forall k | 0 <= k < |restaurants|
      ensures restaurants[k] == RecordFor(elements[k])
    {
      NormaliseAt(elements, k);
    }
  }

  // ---------------------------------------------------------------------
  // The list as a whole: one record per element, in order.

  /** No element is filtered out and none is duplicated. */
  lemma {:induction false} NormaliseLength(es: seq<Element>)
    ensures |Normalise(es)| == |es|
  {
    if es != [] {
      NormaliseLength(es[..|es| - 1]);
    }
  }

  /** Record i is the record of element i. */
  lemma {:induction false} NormaliseAt(es: seq<Element>, i: nat)
    requires i < |es|
    ensures |Normalise(es)| == |es|
    ensures Normalise(es)[i] == RecordFor(es[i])
  {
    NormaliseLength(es);
    if i < |es| - 1 {
      NormaliseAt(es[..|es| - 1], i);
    }
  }

  /** Normalising a concatenation normalises each part and keeps their order. */
  lemma {:induction false} NormaliseAppend(a: seq<Element>, b: seq<Element>)
    ensures Normalise(a + b) == Normalise(a) + Normalise(b)
  {
    if b == [] {
      assert a + b == a;
    } else {
      var c := a + b;
      assert c[..|c| - 1] == a + b[..|b| - 1];
      assert c[|c| - 1] == b[|b| - 1];
      NormaliseAppend(a, b[..|b| - 1]);
    }
  }

  // ---------------------------------------------------------------------
  // One record: each field is the tag's value or its fallback.

  /** A field read from `key` with fallback `default` has value `v`. */
  ghost predicate ReadsTag(tags: Tags, key: string, default: string, v: string)
  {
    (key in tags && v == tags[key]) || (key !in tags && v == default)
  }

  /** An address composed of a street and a city, each read on its own. */
  ghost predicate ComposedAddress(tags: Tags, a: string)
  {
    exists street, city ::
      ReadsTag(tags, StreetKey, Unknown, street) && ReadsTag(tags, CityKey, Unknown, city) &&
      a == street + Separator + city
  }

  /** `r` is a correct normalisation of `tags`, stated field by field. */
  ghost predicate Normalised(tags: Tags, r: Record)
  {
    && ReadsTag(tags, NameKey, Unknown, r.name)
    && ReadsTag(tags, CuisineKey, NotSpecified, r.cuisine)
    && ComposedAddress(tags, r.address)
    && ReadsTag(tags, PhoneKey, NotAvailable, r.phone)
    && ReadsTag(tags, RatingKey, NotAvailable, r.rating)
  }

  /** The record built from the tags is a correct normalisation of them. */
  lemma RecordOfNormalised(tags: Tags)
    ensures Normalised(tags, RecordOf(tags))
  {
    var street, city := Get(tags, StreetKey, Unknown), Get(tags, CityKey, Unknown);
    assert ReadsTag(tags, StreetKey, Unknown, street) && ReadsTag(tags, CityKey, Unknown, city);
  }

  /** And it is the only one: the field-by-field description determines the record. */
  lemma NormalisedUnique(tags: Tags, r: Record)
    requires Normalised(tags, r)
    ensures r == RecordOf(tags)
  {
    var street, city :|
      ReadsTag(tags, StreetKey, Unknown, street) && ReadsTag(tags, CityKey, Unknown, city) &&
      r.address == street + Separator + city;
    assert street == Get(tags, StreetKey, Unknown);
    assert city == Get(tags, CityKey, Unknown);
  }

  /** The address in each of its four cases; street and city fall back independently. */
  lemma AddressCases(tags: Tags)
    ensures StreetKey in tags && CityKey in tags ==>
      RecordOf(tags).address == tags[StreetKey] + ", " + tags[CityKey]
    ensures StreetKey in tags && CityKey !in tags ==>
      RecordOf(tags).address == tags[StreetKey] + ", Unknown"
    ensures StreetKey !in tags && CityKey in tags ==>
      RecordOf(tags).address == "Unknown, " + tags[CityKey]
    ensures StreetKey !in tags && CityKey !in tags ==>
      RecordOf(tags).address == "Unknown, Unknown"
  {
  }

  /** The address always starts with the street and ends with the city around the separator. */
  lemma AddressParts(tags: Tags)
    ensures var a, s, c := RecordOf(tags).address, Get(tags, StreetKey, Unknown), Get(tags, CityKey, Unknown);
      && |a| == |s| + 2 + |c|
      && a[..|s|] == s
      && a[|s|..|s| + 2] == ", "
      && a[|s| + 2..] == c
  {
  }

  /** An element without a "tags" key, or with an empty one, gives the all-fallback record. */
  lemma MissingTagsGiveDefaults(e: Element)
    requires e.tags.None? || e.tags == Some(map[])
    ensures RecordFor(e) == DefaultRecord
  {
  }

  /** Two tag maps agree on the keys that are read. */
  ghost predicate AgreeOnReadKeys(t1: Tags, t2: Tags)
  {
    forall k :: k in ReadKeys ==> (k in t1 <==> k in t2) && (k in t1 ==> t1[k] == t2[k])
  }

  /** Only the six read keys matter: tags that agree on them give the same record. */
  lemma OnlyReadKeysMatter(t1: Tags, t2: Tags)
    requires AgreeOnReadKeys(t1, t2)
    ensures RecordOf(t1) == RecordOf(t2)
  {
    assert NameKey in ReadKeys && CuisineKey in ReadKeys && StreetKey in ReadKeys;
    assert CityKey in ReadKeys && PhoneKey in ReadKeys && RatingKey in ReadKeys;
  }

  /** In particular, adding or changing a tag outside the read keys changes nothing. */
  lemma UnreadTagIgnored(tags: Tags, key: string, value: string)
    requires key !in ReadKeys
    ensures RecordOf(tags[key := value]) == RecordOf(tags)
  {
    OnlyReadKeysMatter(tags[key := value], tags);
  }

  /** The address is never empty; the other fields are non-empty when the values under the read keys are. */
  lemma FieldsNonEmpty(tags: Tags)
    ensures RecordOf(tags).address != ""
    ensures (forall k :: k in ReadKeys && k in tags ==> tags[k] != "") ==>
      var r := RecordOf(tags);
      r.name != "" && r.cuisine != "" && r.phone != "" && r.rating != ""
  {
    assert NameKey in ReadKeys && CuisineKey in ReadKeys && PhoneKey in ReadKeys && RatingKey in ReadKeys;
  }

  // ---------------------------------------------------------------------
  // The row as the dictionary the list holds.

  /** The record as a dictionary from column name to value. */
  function AsRow(r: Record): (row: map<string, string>)
    ensures row.Keys == set c | c in Columns
    ensures row["Name"] == r.name && row["Cuisine"] == r.cuisine && row["Address"] == r.address
    ensures row["Phone"] == r.phone && row["Rating"] == r.rating
  {
    var row := map["Name" := r.name, "Cuisine" := r.cuisine, "Address" := r.address,
                   "Phone" := r.phone, "Rating" := r.rating];
    assert row.Keys == {"Name", "Cuisine", "Address", "Phone", "Rating"};
    row
  }

  /** No field is lost in the dictionary: different records give different rows. */
  lemma AsRowInjective(r1: Record, r2: Record)
    requires AsRow(r1) == AsRow(r2)
    ensures r1 == r2
  {
  }

  /**
    The record as the ordered sequence of (column, value) pairs the dictionary
    holds: a dictionary keeps its keys in insertion order, and the table and its
    CSV header take their columns from that order.
   */
  function RowPairs(r: Record): (p: seq<(string, string)>)
    ensures |p| == |Columns|
    ensures forall i :: 0 <= i < |p| ==> p[i].0 == Columns[i]
    ensures p[0].1 == r.name && p[1].1 == r.cuisine && p[2].1 == r.address
    ensures p[3].1 == r.phone && p[4].1 == r.rating
  {
    [("Name", r.name), ("Cuisine", r.cuisine), ("Address", r.address),
     ("Phone", r.phone), ("Rating", r.rating)]
  }

  /** The ordered pairs and the dictionary agree: each pair's value is the dictionary's value for its column. */
  lemma RowPairsMatchRow(r: Record)
    ensures forall i :: 0 <= i < |RowPairs(r)| ==>
      RowPairs(r)[i].0 in AsRow(r) && AsRow(r)[RowPairs(r)[i].0] == RowPairs(r)[i].1
  {
  }

  /** A fully tagged element keeps every tag value. */
  lemma FullyTaggedExample()
    ensures RecordOf(map["name" := "Joe's", "cuisine" := "Italian", "addr:street" := "King St",
                         "addr:city" := "Toronto", "contact:phone" := "555-1234", "rating" := "4.5"])
         == Record("Joe's", "Italian", "King St, Toronto", "555-1234", "4.5")
  {
  }
}
