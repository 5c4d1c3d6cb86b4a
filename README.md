# Restaurant record normaliser

This project models the normaliser of a small restaurant-finder tool. The tool
asks the Overpass API (a read-only query service over OpenStreetMap) for
restaurants in Toronto. It turns the JSON response into a table of restaurant
records and shows that table in a web page with a CSV download.

The model covers `process_data`, the one piece of the tool that is not HTTP
or UI glue. It takes the parsed response, a JSON object that may hold an
`"elements"` list. Each element may hold a `"tags"` object mapping tag keys to
tag values. For each element, in order, the function appends one record with
five columns:

- Name from tag `name`, else `"Unknown"`;
- Cuisine from tag `cuisine`, else `"Not specified"`;
- Address from `addr:street` and `addr:city`, composed as `street + ", " + city`, each part defaulting to `"Unknown"` on its own;
- Phone from tag `contact:phone`, else `"N/A"`;
- Rating from tag `rating`, else `"N/A"`.

A missing `"elements"` key counts as an empty list. A missing `"tags"` key
counts as an empty tag object.

Files:

- `wrappers.dfy`: the `Option` datatype used for JSON keys that may be absent.
- `restaurants.dfy`: module `Restaurants`. It holds the data model (`Element`, `Response`, `Record`) and the per-element specification `RecordOf`. `Normalise` specifies the whole list. The method `ProcessData` is the loop of `process_data` and is proved equal to `Normalise`. The lemmas state the properties below.

Python dictionaries are modelled as `map<string, string>` and strings as
`seq<char>`. Each output dictionary is a `Record` datatype. `AsRow` gives the
dictionary view of a record, with exactly the five column keys. A `map` has
no key order, so `RowPairs` gives the same row as a sequence of (column, value)
pairs in the dictionary's insertion order.

## Model

| member | source | states |
|---|---|---|
| Restaurants.ProcessData | script.py:30-44 | The loop's result is the list specification `Normalise` of the response's elements. It has one record per element, record i is built from element i, and a response without `"elements"` gives the empty list. The result depends only on the input, so two calls on the same data give the same list. |
| Restaurants.NormaliseLength | script.py:34-42 | The number of records equals the number of elements; nothing is filtered or deduplicated. |
| Restaurants.NormaliseAt | script.py:34-36 | Record i is the record of element i, so output order follows input order. |
| Restaurants.NormaliseAppend | script.py:34-36 | Normalising a concatenation of element lists concatenates their record lists in the same order, since each iteration appends once. |
| Restaurants.RecordOfNormalised | script.py:35-41 | The built record meets the field-by-field description. Each of Name, Cuisine, Phone and Rating is the tag's value when the key is present and its fallback otherwise. The address is some street and some city, each read with fallback "Unknown", joined by ", ". |
| Restaurants.NormalisedUnique | script.py:35-41 | Any record meeting the field-by-field description is the built record, so the description determines the record (the converse of RecordOfNormalised). |
| Restaurants.AddressCases | script.py:39 | The four address cases: both parts present; street only gives "street, Unknown"; city only gives "Unknown, city"; neither gives "Unknown, Unknown". |
| Restaurants.AddressParts | script.py:39 | The address is the street, then ", ", then the city, at exactly those positions. |
| Restaurants.MissingTagsGiveDefaults | script.py:35-41 | An element with no `"tags"` key, or an empty one, gives Name "Unknown", Cuisine "Not specified", Address "Unknown, Unknown", Phone "N/A" and Rating "N/A". |
| Restaurants.OnlyReadKeysMatter | script.py:36-42 | Two tag maps that agree on the six read keys give the same record. |
| Restaurants.UnreadTagIgnored | script.py:36-42 | Adding or changing a tag outside the six read keys leaves the record unchanged. |
| Restaurants.FieldsNonEmpty | script.py:37-41 | The address is never empty. The other four fields are non-empty whenever the tag values under the read keys are non-empty. |
| Restaurants.AsRow | script.py:36-42 | The dictionary appended per element has exactly the five keys Name, Cuisine, Address, Phone and Rating, and each key holds its own field: Name the name, Cuisine the cuisine, Address the address, Phone the phone and Rating the rating. |
| Restaurants.RowPairs | script.py:36-42 | The dictionary's keys in insertion order are the columns Name, Cuisine, Address, Phone, Rating, in that order, each paired with its own field. The table and its CSV header take their column order from this. |
| Restaurants.RowPairsMatchRow | script.py:36-42 | The ordered pairs agree with the dictionary view: each pair's value is the dictionary's value under that pair's column. |
| Restaurants.AsRowInjective | script.py:36-42 | No field is lost in the dictionary: equal rows come from equal records. |
| Restaurants.FullyTaggedExample | script.py:36-42 | An element carrying all six tags keeps every value, with the address "King St, Toronto" built from its street and city. |

One might expect every field of a record to be non-empty. That holds only for
the address, or when the tag values under the read keys are non-empty: a tag
present with the empty string as its value is copied as it is, because the
lookup falls back only when the key is missing. `FieldsNonEmpty` states the
property the code actually has.

## Left out

- `fetch_restaurant_data` (script.py:20-28): one HTTP GET through the `requests` library and an error notice. This is network I/O and foreign code. A non-200 status makes it return `None`; that is not modelled.
- `app` (script.py:46-71): Streamlit widgets, the pandas table and the CSV export through `to_csv`. These are UI and foreign-library calls.
- The Overpass-QL query text and the endpoint URL (script.py:6-18): constant payloads sent to a remote service.
- Placeholder values drawn at random for missing cuisine, street, phone or rating. The modelled code has none; it uses only the fixed fallbacks.
- An element whose `"tags"` value is `null`, or an element that is not an object: in Python the tag lookup then fails. In the model `tags: None` stands only for a missing `"tags"` key.
- Non-string tag values, a non-list `"elements"` value and other malformed JSON. In Python these raise or behave dynamically; here tags are `map<string, string>` and elements a sequence.
- Element fields other than `"tags"` (id, type, coordinates), because the normaliser does not read them.
