# Vehicle list pagination controller

This project models the filtered pagination controller of the fleet
management client's home page (`HomePage`), and proves properties of the
model. The page shows a list of transit vehicles, one page at a time, taken
from a paginated JSON:API-style REST API. The list can be narrowed by route
and then by trip. The controller holds:

- the selected filter: route ids and trip ids;
- the `page` (`limit`, `offset`), which starts at 5 and 0;
- the last vehicle response, made of the vehicles and the
  `first`/`last`/`next`/`prev` links;
- the loaded route and trip lists;
- three loading flags.

It reacts to five events:

- a route selection;
- a trip selection;
- a page-size change;
- the prev and next buttons.

It runs three fetch effects:

- routes, once at mount;
- trips, whenever a new route array is selected, but only when it is not
  empty;
- vehicles, whenever a new `page` object is assigned.

The total page count is read out of the `last` link.

Modules:

- `Wrappers` (`wrappers.dfy`) holds `Option`. `None` stands for JavaScript's
  NaN, for an `undefined` split piece and for a failed request.
- `Text` (`text.dfy`) holds the JavaScript string behaviour the page relies
  on: `${n}` for integers, `${array}` (comma join, with `""` for an empty
  array), first-occurrence search for the `split("page[offset]=")` marker,
  and `parseInt` without a radix (a sign, a `0x`/`0X` prefix for base 16,
  then the digits). Its lemmas prove that `parseInt` reads back a rendered
  integer. `Text` also holds a one-character `Split` and a cut at the first
  occurrence of a character (`BreakAt`). The page never calls these: they
  serve the reading of requests back in `Queries`, and the lemmas prove
  that `Split` undoes the comma join.
- `Pagination` (`pagination.dfy`) holds `getTotalPage`, the page number
  label, the "Showing a to b of c data" numbers, the page-size choices, and
  the invariant that the offset is a whole number of pages.
- `Queries` (`queries.dfy`) holds the three request paths, as the page's
  template literals build them. It also holds `Decode`, a reading of a
  request path back that is not code of the page but an independent
  reference, written the way a JSON:API server takes a query apart: the
  path before `?`, then `&`-separated `key=value` pairs, then a comma list
  for a filter value. The lemmas show that each request carries exactly
  the filter and page values it was built from.
- `VehicleList` (`home_page.dfy`) holds the entities and the class
  `HomePage`. The class has one method per event handler. Each handler
  returns which effects its state change sets off. Each effect is a begin
  step, which raises the flag and returns the request, and a complete step,
  which takes the response or `None` for a failure and lowers the flag. The
  module ends with verified walkthroughs: a route then a trip is
  selected, the page count of a `last` link is read, and the page is
  stepped and resized.

Mount runs `BeginRouteFetch`, then `BeginTripFetch` (which issues nothing
while no route is selected), then `BeginVehicleFetch`. The caller completes
each begun fetch with `CompleteRouteFetch`, `CompleteTripFetch` or
`CompleteVehicleFetch`.

Points of the code's behaviour that the model keeps as they are:

- **Total pages.** `getTotalPage` computes `Math.ceil(m / limit + 1)` for
  the offset `m` that `parseInt` reads after the first `page[offset]=` in
  the `last` link. When that offset is a whole number of pages, this is the
  number of pages, the last page included. The result is NaN when `last` is
  empty, has no `page[offset]=` marker, or has no digits after the marker
  (or after a sign). There is no error path: NaN is what the page shows.
- **Stale trips.** Clearing the route selection does not clear the loaded
  trips. The trip effect returns early and leaves the list as it was.
- **Overlapping fetches.** The code has no sequence numbers and no
  cancellation. A late response is applied like any other.

A link that the server leaves out, sends as `null` or `undefined`, or
sends empty is the empty string in the model. Those values are falsy at
the two guards, and all of them give NaN in `getTotalPage`.

## Model

| member | source | states |
|---|---|---|
| `Text.NatToString` | client/src/components/HomePage.tsx:118 | an integer in a template literal renders as a non-empty run of decimal digits, with no leading zero except for 0 itself |
| `Text.IntToString` | client/src/components/HomePage.tsx:118 | the rendering starts with a minus sign exactly when the number is negative |
| `Text.DigitRun` | client/src/components/HomePage.tsx:74 | the run of digits `parseInt` reads is the longest all-digit prefix: it is followed by the end or by a non-digit |
| `Text.ParseDigits` | client/src/components/HomePage.tsx:74 | the text yields a number (not NaN) exactly when it starts with a digit |
| `Text.ParseInt` | client/src/components/HomePage.tsx:74 | `parseInt` without a radix: NaN exactly when, after an optional sign, there is no decimal digit, or a `0x`/`0X` prefix not followed by a hexadecimal digit; a negative result only comes from text that starts with `-` |
| `Text.ParseIntOfHexPrefix` | client/src/components/HomePage.tsx:74 | `0x14` reads as 20, `-0X1f` as -31, and `0xg` as NaN |
| `Text.ParseIntOfIntToString` | client/src/components/HomePage.tsx:74 | `parseInt` reads back the rendering of every integer when the text after it is not a digit and, after a rendered 0, not the `x`/`X` of a hexadecimal prefix |
| `Text.DigitsValueOfNatToString` | client/src/components/HomePage.tsx:74 | the digits of a rendered natural number have that number as their value |
| `Text.Split` | client/src/components/HomePage.tsx:118 | in the reading of a request back (not code of the page): splitting at one character gives at least one piece, and no piece contains the separator |
| `Text.JoinSplit` | client/src/components/HomePage.tsx:118 | in the reading of a request back: joining the pieces of a split with the same separator gives back the original string |
| `Text.SplitJoin` | client/src/components/HomePage.tsx:118 | in the reading of a request back: splitting the comma join of a non-empty array, none of whose elements holds the separator, gives back the array |
| `Text.Join` | client/src/components/HomePage.tsx:118 | `${array}` in a template literal: the rendering starts with the first element, followed by the separator when there are more; `JoinSplit` and `SplitJoin` relate it to `Split` |
| `Text.JoinAvoids` | client/src/components/HomePage.tsx:118 | a character outside every element and different from the separator is not in the join |
| `Text.FindFrom` | client/src/components/HomePage.tsx:74 | the result is the first occurrence of the marker at or after the start position, or None when there is none |
| `Text.Find` | client/src/components/HomePage.tsx:74 | the result is the first occurrence of the marker, or None exactly when the marker does not occur |
| `Text.BreakAt` | client/src/components/HomePage.tsx:118 | in the reading of a request back: the cut at the first occurrence of a character puts that character back between the two parts, and the first part does not hold it; None exactly when the character is absent |
| `Text.BreakAtFirst` | client/src/components/HomePage.tsx:118 | in the reading of a request back: a string `k + c + v` with no `c` in `k` is cut into `k` and `v` |
| `Pagination.OffsetText` | client/src/components/HomePage.tsx:74 | `split("page[offset]=")[1]` is undefined exactly when the marker is absent; otherwise it is the slice of `last` that starts right after the first marker, holds no marker, and ends at the next marker or at the end of `last` |
| `Pagination.LastOffset` | client/src/components/HomePage.tsx:74 | `parseInt(last.split("page[offset]=")[1])`: NaN whenever `last` has no marker; `LastOffsetOfLink` states what it reads from a link rendered by the server |
| `Pagination.CeilDiv` | client/src/components/HomePage.tsx:73-76 | the integer ceiling of `m / limit` is the least `q` with `m <= q * limit` |
| `Pagination.TotalPages` | client/src/components/HomePage.tsx:72-78 | NaN exactly when no offset `m` can be read from `last`; otherwise the count `t` satisfies `(t - 2) * limit < m <= (t - 1) * limit`, which is `ceil(m / limit + 1)` |
| `Pagination.TotalPagesOfEmptyLink` | client/src/components/HomePage.tsx:72-78 | an empty `last` link gives NaN |
| `Pagination.TotalPagesWithoutMarker` | client/src/components/HomePage.tsx:72-78 | a `last` link without `page[offset]=` gives NaN |
| `Pagination.TotalPagesWithoutDigits` | client/src/components/HomePage.tsx:72-78 | a marker followed by no digit, either at once or after a `+` or `-` sign, gives NaN |
| `Pagination.FirstMarker` | client/src/components/HomePage.tsx:74 | in `prefix + marker + rest`, with no marker in `prefix`, the first marker is the one right after `prefix` |
| `Pagination.OffsetTextAfter` | client/src/components/HomePage.tsx:74 | after that first marker, the split piece is `rest` up to its own next marker |
| `Pagination.NoMarkerInRendering` | client/src/components/HomePage.tsx:74 | no `page[offset]=` marker starts inside the rendering of an integer |
| `Pagination.PieceOfRendering` | client/src/components/HomePage.tsx:74 | `parseInt` of the split piece that starts with a rendered offset `m` is `m`, wherever the next marker falls, when what follows the number does not continue it |
| `Pagination.LastOffsetOfLink` | client/src/components/HomePage.tsx:74 | the offset read out of a link that renders `m` after its first marker is `m`, when what follows the number does not continue it |
| `Pagination.TotalPagesOfLink` | client/src/components/HomePage.tsx:72-78 | a link that renders offset `m` after its first marker gives exactly `ceil(m / limit) + 1` pages, whatever follows that is not a digit (nor, after a rendered 0, an `x` or `X`) |
| `Pagination.TotalPagesExample` | client/src/components/HomePage.tsx:72-78 | `/vehicles?page[offset]=20&page[limit]=5` with 5 a page gives 5 pages |
| `Pagination.TotalPagesOfHexOffset` | client/src/components/HomePage.tsx:72-78 | `/vehicles?page[offset]=0x14` with 5 a page gives 5 pages, as `parseInt` reads `0x14` as 20 |
| `Pagination.PageNumber` | client/src/components/HomePage.tsx:260 | the label is the page, counted from one, whose vehicles include the one at `offset` |
| `Pagination.PageNumberStep` | client/src/components/HomePage.tsx:130-146 | moving the offset one page up or down moves the page number by exactly +1 or -1 |
| `Pagination.ShowingRange` | client/src/components/HomePage.tsx:248-249 | "Showing a to b" always spans exactly `limit` vehicles; the total `limit * getTotalPage()` is NaN exactly when no offset `m` can be read from `last`, and otherwise lies in `[m + limit, m + 2 * limit)` |
| `Pagination.RangeIsShownPage` | client/src/components/HomePage.tsx:248-260 | on a well-formed page, a and b are the first and last vehicles of the page number shown between the arrows |
| `Pagination.RangeWithinTotal` | client/src/components/HomePage.tsx:248-249 | at or before the offset that the `last` link names, b never exceeds the stated total `limit * totalPages` |
| `Queries.TripQuery` | client/src/components/HomePage.tsx:101 | the trip request, as the template literal builds it; `TripQueryDecodes` states what it carries |
| `Queries.VehicleQuery` | client/src/components/HomePage.tsx:118 | the vehicle request, as the template literal builds it; `VehicleQueryDecodes` states what it carries |
| `Queries.RoutesRequestDecodes` | client/src/components/HomePage.tsx:84 | the route request `RoutesRequest` names `/routes` and carries only `page[limit]=20` |
| `Queries.ListValueOfJoin` | client/src/components/HomePage.tsx:118 | a comma-joined id array reads back as the same list, and the empty array as the empty list |
| `Queries.DecodeAt` | client/src/components/HomePage.tsx:118 | in the reading of a request back: a request path is cut at its first `?` into the path and the parameters |
| `Queries.ParamsCons` | client/src/components/HomePage.tsx:118 | in the reading of a request back: a leading `key=value&` piece reads back as that pair, followed by the rest |
| `Queries.ParamsLast` | client/src/components/HomePage.tsx:118 | in the reading of a request back: a final `key=value` piece reads back as that pair |
| `Queries.DecodeOne` | client/src/components/HomePage.tsx:84 | in the reading of a request back: a path with one `key=value` pair reads back as that pair |
| `Queries.DecodeTwo` | client/src/components/HomePage.tsx:101 | in the reading of a request back: a path with two `key=value` pairs reads back as those pairs |
| `Queries.DecodeFour` | client/src/components/HomePage.tsx:118 | in the reading of a request back: a path with four `key=value` pairs reads back as those pairs |
| `Queries.RenderingAvoids` | client/src/components/HomePage.tsx:118 | a rendered integer holds only digits and `-` |
| `Queries.VehicleQueryDecodes` | client/src/components/HomePage.tsx:118 | the vehicle request names `/vehicles` and carries exactly `filter[route]`, `fields[trip]`, `page[limit]` and `page[offset]` with the joined routes, joined trips, limit and offset, in that order |
| `Queries.TripQueryDecodes` | client/src/components/HomePage.tsx:101 | the trip request names `/trips` and carries exactly the joined routes and `page[limit]=20` |
| `VehicleList.HomePage.constructor` | client/src/components/HomePage.tsx:45-70 | the initial state: empty response with empty links, no routes, no trips, an empty filter, page `{5, 0}`, only the vehicle flag up |
| `VehicleList.HomePage.SelectRoutes` | client/src/components/HomePage.tsx:158-170 | the routes become the selection, the trips become empty, the offset becomes 0 and the limit is kept; both the trip fetch and the vehicle fetch are triggered; the well-formed page is kept |
| `VehicleList.HomePage.SelectTrips` | client/src/components/HomePage.tsx:192-204 | only the trips are replaced, the routes and the limit are kept and the offset becomes 0; a vehicle fetch and no trip fetch are triggered |
| `VehicleList.HomePage.SetPageSize` | client/src/components/HomePage.tsx:236-246 | the page becomes the chosen size (one of 5, 10 and 15) at offset 0; the filter is untouched; one vehicle fetch is triggered |
| `VehicleList.HomePage.PrevPage` | client/src/components/HomePage.tsx:130-137 | the offset drops by `limit` exactly when `links.prev` is non-empty, and only then is a fetch issued; otherwise nothing changes; after a step, the page number is one less |
| `VehicleList.HomePage.NextPage` | client/src/components/HomePage.tsx:139-146 | the offset grows by `limit` exactly when `links.next` is non-empty, and only then is a fetch issued; otherwise nothing changes; after a step, the page number is one more |
| `VehicleList.HomePage.BeginRouteFetch` | client/src/components/HomePage.tsx:81-84 | the route flag goes up and `/routes?page[limit]=20` is requested |
| `VehicleList.HomePage.CompleteRouteFetch` | client/src/components/HomePage.tsx:84-90 | a response replaces the route list wholesale, a failure leaves it, and the flag ends down |
| `VehicleList.HomePage.BeginTripFetch` | client/src/components/HomePage.tsx:96-102 | no request, and an untouched flag, exactly when no route is selected; otherwise the flag goes up and the trip request for the selected routes is made |
| `VehicleList.HomePage.CompleteTripFetch` | client/src/components/HomePage.tsx:98-108 | a response replaces the trip list wholesale, a failure leaves it, and the flag ends down |
| `VehicleList.HomePage.BeginVehicleFetch` | client/src/components/HomePage.tsx:114-119 | the vehicle flag goes up and the vehicle request is built from the current filter and page |
| `VehicleList.HomePage.CompleteVehicleFetch` | client/src/components/HomePage.tsx:117-125 | a response replaces vehicles and links together, a failure leaves them, and the flag ends down |
| `VehicleList.StepKeepsWellFormed` | client/src/components/HomePage.tsx:130-146 | a page step up or down keeps the offset a whole number of pages |
| `VehicleList.HomePage.TotalPage` | client/src/components/HomePage.tsx:270 | "Total Page" is NaN exactly when no offset `m` can be read from `last`; otherwise it is the count `t` with `(t - 2) * limit < m <= (t - 1) * limit` |
| `VehicleList.HomePage.ShownPageNumber` | client/src/components/HomePage.tsx:260 | on a well-formed page the label `n` is the page whose first vehicle is at `offset`: `(n - 1) * limit == offset` |
| `VehicleList.WalkthroughTripRequest` | client/src/components/HomePage.tsx:101 | selecting `Red` requests `/trips?filter[route]=Red&page[limit]=20` |
| `VehicleList.WalkthroughVehicleRequest` | client/src/components/HomePage.tsx:118 | with route `Red`, trip `T1`, limit 5 or 10 and offset 0, the vehicle request reads back as `/vehicles` with `filter[route]=Red`, `fields[trip]=T1`, `page[limit]=5` (or `10`) and `page[offset]=0`, in that order |

## Left out

- HTTP transport and JSON decoding: the `api` client is not part of this
  model. Responses are the parameters of the complete steps, already
  decoded, with `None` for any thrown error.
- Overlapping fetches: a begin step and its complete step can be separated
  by any other calls. Nothing orders them, because the code does not either.
- `console.error` logging on failure: it is output only.
- Presentation: the JSX markup, the CSS classes, `VehicleCard`, the date and
  coordinate display, the choice between the vehicle cards and "No data
  available" (lines 224-230), and the state-dependent visibility of
  controls (lines 184, 233 and 270) are left out. The handlers are modelled as
  callable in any state, and none of them relies on that visibility. The
  disabled state of the arrows (lines 255 and 265) tests the same link as
  the handler's own guard.
- `Number(e.target.value)` on the page-size select: the select only offers
  5, 10 and 15, so `SetPageSize` takes the number and requires it to be one
  of them.
- The "Loading routes…"/"Loading trips…" placeholder options: they are not
  modelled; a selection is a list of id strings.
- `VehicleDetailsModal`, `VehicleCard` and the router in `App` are not part
  of this model.
- Text.ParseInt: `parseInt`'s skipping of leading whitespace is not
  modelled, and its result is an unbounded integer, where a JavaScript
  number is exact only up to 2^53.
- Text.IntToString: `${n}` is modelled as plain decimal digits; JavaScript
  switches to exponent form from 1e21, far beyond any offset or page size.
- Pagination.TotalPages: float rounding in `m / limit` is not modelled;
  integer ceiling division replaces it, and the two agree for offsets below
  2^53.
- Queries.VehicleQueryDecodes and Queries.TripQueryDecodes assume ids
  without `&`. The code interpolates ids without URL encoding, so an id
  holding `&` would change the request's parameters.
- Queries.ListValueOfJoin assumes ids that are non-empty and hold no `,`.
  An id holding `,` would reach the server as two ids, and an empty id
  would disappear from the list.
- The "Showing a to b of c" text is modelled by its three numbers. Its
  surrounding words are not.
