# Catalog item transactions and scene coverage grouping, in Dafny

This project models two small decision procedures and proves properties of
them.

**`AoiFetcher`** (`aoi_fetcher.dfy`) models the STAC transaction client
`TapiPayload`, which creates (POST), replaces (PUT) and deletes (DELETE) one
item of a collection in a remote catalog.

- `FeatureId` and `TapiPath` are the payload's `feature_id` and `tapi_path`
  properties.
- `Request` gives what each operation sends: the verb, the URL, the JSON body
  (if any) and the `Authorization` header.
- `Retry` stands for the `stamina` wrapper with `on=HTTPError`. It re-sends
  the request while the transport fails, with at most `budget` tries. The
  network is a sequence of attempt results that the caller hands in.
- `Classify` maps the status code of the response that gets through to an
  `Outcome`.
- `Transact` chains the three.

The `Outcome` datatype is closed:

- three ways to return normally: `Ok`, `LoggedError` and `LoggedWarning`;
- the three typed exceptions, `AlreadyExists`, `NotFoundOnPost` and
  `NotFound`, each carrying the feature id;
- the generic `GenericHttp(status, body)`;
- `MissingId`, the `KeyError` raised when an object feature has no `"id"`
  member;
- `TransportFailure`, for when retries are used up.

`IsSuccess` is httpx's `is_success` rule, the range 200..299. This is an
assumption about the HTTP library: its code is not part of this model.

**`Raster2Xarray`** (`raster_2_xarray.dfy`) models
`MyCube.group_by_fully_covered`. The class `MyCube` keeps its three parallel
lists as fields. Its method `GroupByFullyCovered` does what the Python does:

1. It zips the lists, truncating to the shortest.
2. `ScenesByDate` fills a date-keyed dictionary of scene lists. `keys` is its
   insertion order, which is the order in which Python iterates the
   dictionary.
3. It walks the dates, collecting the scenes that cover the area of interest
   on their own ("single").
4. It collects the dates whose scenes cover it as a union ("mosaic").

Geometries, paths and dates are type parameters. Shapely's `aoi.within(g)`
and `unary_union` are passed in as functions the model does not interpret.
The method is proved equal to the specification function `CoverageGroups`.
The lemmas below prove that specification's properties:

- partition into date groups;
- first-occurrence order of the dates;
- the exact multiplicity of each scene in "single";
- group-wise order of "single";
- when a date has a mosaic entry, and what the entry holds;
- the size bounds.

PUT and DELETE read `feature_id` while building the URL
(scripts/aoi_fetcher.py:89, 109). So an object feature without `"id"`
raises `KeyError` before any request is sent. POST does not read the id
before sending. The request goes out, and the `KeyError` comes only from a
branch after the response that reads the id. That includes the debug line
that ends every normal return. A POST whose response takes the generic
branch raises the HTTP error instead. `PostMissingIdOnlyAfterResponse`
states this behaviour.

## Model

| member | source | states |
|---|---|---|
| AoiFetcher.FeatureId | scripts/aoi_fetcher.py:48-53 | an id exists iff the feature is a bare identifier or an object with an "id" member; it is the identifier itself, or the object's "id" value |
| AoiFetcher.TapiPath | scripts/aoi_fetcher.py:55-57 | the path is base URL, "/collections/", collection id, "/items/", each readable back verbatim at fixed offsets; its length is their total length |
| AoiFetcher.TapiPathInjective | scripts/aoi_fetcher.py:55-57 | within one catalog, equal item endpoints imply equal collection ids |
| AoiFetcher.Request | scripts/aoi_fetcher.py:64-111 | PUT and DELETE without a resolvable id send nothing, POST always sends; the verb is POST, PUT or DELETE as the operation says; the header is "Bearer " followed by the token; POST and PUT send the feature as body, DELETE sends none; POST targets the items endpoint, PUT and DELETE the endpoint followed by the id |
| AoiFetcher.ItemUrlDeterminesId | scripts/aoi_fetcher.py:88-111 | for PUT and DELETE in one collection, equal request URLs imply equal feature ids |
| AoiFetcher.Classify | scripts/aoi_fetcher.py:69-122 | with an id: raises iff status is not 2xx, not 400 and not a DELETE 404; Ok iff 2xx; logged error iff 400; logged warning iff DELETE 404; AlreadyExists iff POST 409; NotFoundOnPost iff POST 404; NotFound iff PUT 404; each typed error carries that id; generic error iff none of these branches applies, carrying the status and body; a missing id raises KeyError exactly on the branches that read it |
| AoiFetcher.Retry | scripts/aoi_fetcher.py:59-68 | a response is handed on only if it came back within the budget after transport failures only, and it is that response; retries are exhausted iff every try within the budget failed in transport |
| AoiFetcher.Transact | scripts/aoi_fetcher.py:59-122 | a whole transaction: a request that cannot be built ends in KeyError; the transport failure escapes exactly when a request was built and every try within the budget failed in transport; any other outcome of a built request comes from a received response. The lemmas below add that failures before the response are invisible, that a normal return needs a real 2xx, 400 or 404 response, and how POST and PUT/DELETE differ on a missing id |
| AoiFetcher.FailFastBeforeRequest | scripts/aoi_fetcher.py:83-111 | PUT or DELETE of an object without "id" builds no request and ends in KeyError whatever the network does |
| AoiFetcher.PostMissingIdOnlyAfterResponse | scripts/aoi_fetcher.py:59-81 | POST of an object without "id" is sent; KeyError only after a response; exhausted retries give the transport failure; any received status that is not 2xx, 400, 404 or 409 gives the generic HTTP error with that status and body |
| AoiFetcher.RetriesAreTransparent | scripts/aoi_fetcher.py:59-122 | any number of transport failures within the budget followed by a response gives exactly the classification of that response |
| AoiFetcher.NoFabricatedSuccess | scripts/aoi_fetcher.py:59-122 | a normal return needs a real response within a positive budget whose status is 2xx, 400 or 404 |
| AoiFetcher.DeleteOfAbsentItemReturnsNormally | scripts/aoi_fetcher.py:112-118 | DELETE's 404 is a logged warning with the id and never raises, so deleting twice is harmless |
| AoiFetcher.NotFoundByOperation | scripts/aoi_fetcher.py:69-118 | a 404 is NotFoundOnPost for POST, NotFound for PUT, a warning for DELETE |
| AoiFetcher.ConflictByOperation | scripts/aoi_fetcher.py:69-120 | a 409 is AlreadyExists only for POST; for PUT and DELETE it is the generic error with status 409 and the body |
| AoiFetcher.BadRequestNeverRaises | scripts/aoi_fetcher.py:69-114 | a 400 is logged with the body and swallowed by all three operations |
| Raster2Xarray.Zip | scripts/raster_2_xarray.py:22-24 | the zipped scenes number the length of the shortest list, and scene i holds the i-th path, geometry and date |
| Raster2Xarray.ExtraElementsIgnored | scripts/raster_2_xarray.py:22-24 | the result equals the one computed from the three lists cut to the shortest length |
| Raster2Xarray.FirstSeen | scripts/raster_2_xarray.py:21-31 | the dictionary's keys: no date twice, every key is an input date, every input date is a key |
| Raster2Xarray.FirstSeenOrder | scripts/raster_2_xarray.py:21-31 | keys come in strictly increasing order of first occurrence |
| Raster2Xarray.FirstSeenCount | scripts/raster_2_xarray.py:21-31 | the number of keys is the number of distinct dates |
| Raster2Xarray.GroupOfAppend | scripts/raster_2_xarray.py:25-29 | a date's list keeps input order: the group of a concatenation is the concatenation of the groups |
| Raster2Xarray.GroupOfAbsent | scripts/raster_2_xarray.py:25-29 | a date that does not occur has an empty list |
| Raster2Xarray.GroupCount | scripts/raster_2_xarray.py:25-29 | a date's list holds each scene of that date as often as the input does, and no scene of another date |
| Raster2Xarray.GroupsAddScene | scripts/raster_2_xarray.py:25-31 | one more scene adds one copy of it to the groups of distinct dates exactly when its date is among them |
| Raster2Xarray.GroupsPermute | scripts/raster_2_xarray.py:25-31 | the groups of distinct dates that include every scene's date are a permutation of the scenes |
| Raster2Xarray.Partition | scripts/raster_2_xarray.py:21-31 | the groups read in key order are a permutation of the zipped scenes: every scene is in exactly one group, its own date's |
| Raster2Xarray.DateIndexStep | scripts/raster_2_xarray.py:25-29 | one `append` on the defaultdict keeps keys in first-seen order, and keeps each key's list equal to its date's group |
| Raster2Xarray.AppendToIndex | scripts/raster_2_xarray.py:25-29 | after one `append`, every key still maps to its date's group of the scenes seen so far |
| Raster2Xarray.IndexOfIsDateIndex | scripts/raster_2_xarray.py:21-29 | the dictionary built from all scenes has the first-seen dates as keys in order, and maps each to its date's group |
| Raster2Xarray.ScenesByDate | scripts/raster_2_xarray.py:21-29 | the loop builds exactly that dictionary and key order |
| Raster2Xarray.CoveredCount | scripts/raster_2_xarray.py:32-34 | the covering selection holds a scene as often as its input if the scene covers, else not at all |
| Raster2Xarray.CoveredLength | scripts/raster_2_xarray.py:32-34 | the covering selection is no longer than its input |
| Raster2Xarray.CoveredAppend | scripts/raster_2_xarray.py:32-34 | the covering selection keeps input order: it commutes with concatenation |
| Raster2Xarray.SingleCount | scripts/raster_2_xarray.py:31-34 | for distinct dates, "single" holds a scene as often as the input does iff its date is listed and it covers, else not at all |
| Raster2Xarray.SingleCountAll | scripts/raster_2_xarray.py:31-34 | over all keys, "single" holds a scene as often as the input does iff it covers |
| Raster2Xarray.SingleIsCoveredGroups | scripts/raster_2_xarray.py:31-34 | "single" is exactly the covering scenes of the date groups read one after another: ordered by date group, then by input order |
| Raster2Xarray.MosaicEntries | scripts/raster_2_xarray.py:36-41 | a date has an entry iff it is listed and the union of its scenes covers; each entry lists the paths of all that date's scenes in input order |
| Raster2Xarray.MosaicDistinct | scripts/raster_2_xarray.py:31-41 | for distinct dates, "mosaic" has at most one entry per date and no more entries than dates |
| Raster2Xarray.SingleProperties | scripts/raster_2_xarray.py:17-43 | in the result, "single" holds each zipped scene exactly as often as the input iff it covers on its own, and is no longer than the zipped input |
| Raster2Xarray.MosaicProperties | scripts/raster_2_xarray.py:17-43 | in the result, "mosaic" has no date twice; a date has an entry iff it occurs among the zipped dates and the union of its scenes covers; each entry's paths are all that date's paths; it has no more entries than distinct dates |
| Raster2Xarray.MyCube.constructor | scripts/raster_2_xarray.py:11-15 | the three lists are stored as given |
| Raster2Xarray.MyCube.GroupByFullyCovered | scripts/raster_2_xarray.py:17-43 | the nested loops compute exactly `CoverageGroups` of the three lists, whose properties are the lemmas above; with no `modifies` clause, the lists are left unchanged |

## Left out

- The HTTP client's configuration is not modelled: the 30-second timeout,
  following redirects and disabled certificate checks. Neither is
  asynchronous execution; a transaction is one function evaluation.
- Log messages and levels are not modelled. The model only records whether
  an outcome returns normally after logging or raises.
- The texts of the exception messages are not modelled.
- `Retry`: the backoff, the jitter and the wall-clock timeout of `stamina` are
  not modelled. The number of tries is the parameter `budget`.
- Decoding the response body (`r.json()`) is not modelled. The body is an
  opaque `Json` string, so a body that fails to decode is not modelled either.
- The default base URL `OS_URL` comes from `subs2pgstac.config`, which is not
  part of this model. `osUrl` is an ordinary field.
- `Feature`: only the string members of an object feature are modelled. A
  non-string `"id"` would raise a type error when concatenated into the URL,
  and that case is not modelled.
- The request body is the feature value. Its JSON serialisation is not
  modelled.
- Status codes are unbounded integers with no range check.
- Shapely's `within` and `unary_union` are uninterpreted function parameters,
  so no geometric fact about them is assumed or proved.
- Paths, dates and geometries are type parameters. Only date equality, which
  dictionary keys need, is used.
- The scene dictionaries and the result dictionary are records with fixed
  fields (`Scene`, `MosaicEntry`, `Grouping`) rather than string-keyed dicts.
- `scripts/h3_2_aoi.py` and the rest of the repository are not part of this
  model.
