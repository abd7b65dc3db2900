/** The state of the vehicle list page and its event handlers and fetch
    effects. Each handler says which effects its state change sets off:
    the vehicle fetch runs whenever `page` is assigned a new object, the trip
    fetch whenever `filter.routes` is assigned a new array. Each fetch is a
    begin step (loading flag up, request path out) and a complete step
    (response or failure in, loading flag down). */
module VehicleList {
  import opened Wrappers
  import opened Text
  import opened Pagination
  import opened Queries

  datatype Vehicle = Vehicle(
    id: string, vehicleLabel: string, currentStatus: string,
    latitude: real, longitude: real, updatedAt: string)

  datatype Route = Route(id: string)

  datatype Trip = Trip(id: string)

  /** The selected route ids and trip ids, in selection order. */
  datatype Filter = Filter(routes: seq<string>, trips: seq<string>)

  /** The `{ data, links }` envelope of a vehicle list response. */
  datatype VehicleResponse = VehicleResponse(data: seq<Vehicle>, links: Links)

  const EmptyResponse := VehicleResponse([], NoLinks)

  class HomePage {
    var vehicleResponse: VehicleResponse
    var routes: seq<Route>
    var trips: seq<Trip>
    var filter: Filter
    var page: Page
    var vehicleLoading: bool
    var routeLoading: bool
    var tripLoading: bool

    /** Every reachable state keeps a well-formed page. */
    predicate Valid()
      reads this`page
    {
      WellFormed(page)
    }

    /** The state before any effect has run. */
    constructor ()
      ensures Valid()
      ensures vehicleResponse == EmptyResponse && routes == [] && trips == []
      ensures filter == Filter([], []) && page == InitialPage
      ensures vehicleLoading && !routeLoading && !tripLoading
    {
      vehicleResponse := EmptyResponse;
      routes, trips := [], [];
      filter := Filter([], []);
      page := InitialPage;
      vehicleLoading, routeLoading, tripLoading := true, false, false;
    }

    // -------------------------------------------------------------------
    // Event handlers
    // -------------------------------------------------------------------

    /** The route select's change handler: the selection replaces the
        routes, the trip selection is emptied and the offset goes back to
        0. Both the new routes array and the new page object set off their
        effects. */
    method SelectRoutes(selected: seq<string>) returns (fetchVehicles: bool, fetchTrips: bool)
      requires Valid()
      modifies this`filter, this`page
      ensures Valid()
      ensures filter == Filter(selected, [])
      ensures page == Page(old(page.limit), 0)
      ensures fetchVehicles && fetchTrips
    {
      filter := Filter(selected, []);
      page := page.(offset := 0);
      fetchVehicles, fetchTrips := true, true;
    }

    /** The trip select's change handler: the selection replaces the trips
        only and the offset goes back to 0. The routes array is kept, so the
        trip effect does not run again; the new page object sets off the
        vehicle effect. */
    method SelectTrips(selected: seq<string>) returns (fetchVehicles: bool, fetchTrips: bool)
      requires Valid()
      modifies this`filter, this`page
      ensures Valid()
      ensures filter == Filter(old(filter.routes), selected)
      ensures page == Page(old(page.limit), 0)
      ensures fetchVehicles && !fetchTrips
    {
      filter := filter.(trips := selected);
      page := page.(offset := 0);
      fetchVehicles, fetchTrips := true, false;
    }

    /** The "Data per page" select's change handler: a fresh page of the
        chosen size at offset 0; the filter is left as it is. */
    method SetPageSize(limit: int) returns (fetchVehicles: bool)
      requires Valid()
      requires IsPageSize(limit)
      modifies this`page
      ensures Valid()
      ensures page == Page(limit, 0)
      ensures fetchVehicles
    {
      page := Page(limit, 0);
      fetchVehicles := true;
    }

    /** `handlePrevPage`: one page back if and only if the response has a
        `prev` link; otherwise nothing changes and nothing is fetched. */
    method PrevPage() returns (fetchVehicles: bool)
      requires Valid()
      modifies this`page
      ensures Valid()
      ensures fetchVehicles <==> vehicleResponse.links.prev != ""
      ensures page == if fetchVehicles then old(page).(offset := old(page.offset) - old(page.limit))
                      else old(page)
      ensures fetchVehicles ==>
        PageNumber(page.offset, page.limit) == PageNumber(old(page.offset), old(page.limit)) - 1
    {
      fetchVehicles := vehicleResponse.links.prev != "";
      if fetchVehicles {
        PageNumberStep(page.offset, page.limit);
        StepKeepsWellFormed(page.offset, page.limit, -1);
        page := page.(offset := page.offset - page.limit);
      }
    }

    /** `handleNextPage`: one page on if and only if the response has a
        `next` link; otherwise nothing changes and nothing is fetched. */
    method NextPage() returns (fetchVehicles: bool)
      requires Valid()
      modifies this`page
      ensures Valid()
      ensures fetchVehicles <==> vehicleResponse.links.next != ""
      ensures page == if fetchVehicles then old(page).(offset := old(page.offset) + old(page.limit))
                      else old(page)
      ensures fetchVehicles ==>
        PageNumber(page.offset, page.limit) == PageNumber(old(page.offset), old(page.limit)) + 1
    {
      fetchVehicles := vehicleResponse.links.next != "";
      if fetchVehicles {
        PageNumberStep(page.offset, page.limit);
        StepKeepsWellFormed(page.offset, page.limit, 1);
        page := page.(offset := page.offset + page.limit);
      }
    }

    // -------------------------------------------------------------------
    // Fetch effects
    // -------------------------------------------------------------------

    /** `fetchRoutes`, first half: the flag goes up and the route list is
        requested. */
    method BeginRouteFetch() returns (request: string)
      modifies this`routeLoading
      ensures routeLoading
      ensures request == RoutesRequest
    {
      routeLoading := true;
      request := RoutesRequest;
    }

    /** `fetchRoutes`, second half: a response replaces the route list, a
        failure leaves it; the flag goes down either way. */
    method CompleteRouteFetch(response: Option<seq<Route>>)
      modifies this`routes, this`routeLoading
      ensures !routeLoading
      ensures routes == if response.Some? then response.value else old(routes)
    {
      if response.Some? {
        routes := response.value;
      }
      routeLoading := false;
    }

    /** `fetchTrips`, first half: with no route selected it returns at once,
        without a request and without touching the flag; otherwise the flag
        goes up and the trips of the selected routes are requested. */
    method BeginTripFetch() returns (request: Option<string>)
      modifies this`tripLoading
      ensures request.None? <==> filter.routes == []
      ensures request.Some? ==> request.value == TripQuery(filter.routes) && tripLoading
      ensures request.None? ==> tripLoading == old(tripLoading)
    {
      if |filter.routes| == 0 {
        request := None;
      } else {
        tripLoading := true;
        request := Some(TripQuery(filter.routes));
      }
    }

    /** `fetchTrips`, second half: a response replaces the trip list, a
        failure leaves it; the flag goes down either way. */
    method CompleteTripFetch(response: Option<seq<Trip>>)
      modifies this`trips, this`tripLoading
      ensures !tripLoading
      ensures trips == if response.Some? then response.value else old(trips)
    {
      if response.Some? {
        trips := response.value;
      }
      tripLoading := false;
    }

    /** `fetchVehicles`, first half: the flag goes up and the vehicles of
        the current filter and page are requested. */
    method BeginVehicleFetch() returns (request: string)
      modifies this`vehicleLoading
      ensures vehicleLoading
      ensures request == VehicleQuery(filter.routes, filter.trips, page.limit, page.offset)
    {
      vehicleLoading := true;
      request := VehicleQuery(filter.routes, filter.trips, page.limit, page.offset);
    }

    /** `fetchVehicles`, second half: a response replaces the whole
        envelope, vehicles and links together; a failure leaves it; the flag
        goes down either way. */
    method CompleteVehicleFetch(response: Option<VehicleResponse>)
      modifies this`vehicleResponse, this`vehicleLoading
      ensures !vehicleLoading
      ensures vehicleResponse == if response.Some? then response.value else old(vehicleResponse)
    {
      if response.Some? {
        vehicleResponse := response.value;
      }
      vehicleLoading := false;
    }

    // -------------------------------------------------------------------
    // What the page shows
    // -------------------------------------------------------------------

    /** "Total Page: {getTotalPage()}": NaN exactly when no offset can be
        read from the `last` link, otherwise the page count whose last page
        starts at or after that offset. */
    function TotalPage(): (r: Option<int>)
      reads this
      requires Valid()
      ensures r.None? <==> LastOffset(vehicleResponse.links.last).None?
      ensures r.Some? ==>
        var m := LastOffset(vehicleResponse.links.last).value;
        (r.value - 2) * page.limit < m <= (r.value - 1) * page.limit
    {
      TotalPages(vehicleResponse.links.last, page.limit)
    }

    /** The label between the arrows: the page, counted from one, that
        holds the vehicle at `offset`; on a well-formed page that vehicle is
        the page's first. */
    function ShownPageNumber(): (n: int)
      reads this
      requires Valid()
      ensures (n - 1) * page.limit == page.offset
    {
      PageNumber(page.offset, page.limit)
    }
  }

  /** A step of one page keeps the offset a whole number of pages. */
  lemma StepKeepsWellFormed(offset: int, limit: int, dir: int)
    requires IsPageSize(limit) && offset % limit == 0
    requires dir == 1 || dir == -1
    ensures WellFormed(Page(limit, offset + dir * limit))
  {
    var q := offset / limit;
    assert offset == q * limit;
    assert offset + dir * limit == (q + dir) * limit;
  }

  /** A walkthrough of filtering: routes Red and Blue are loaded, Red is
      selected, then trip T1, and each step issues the request built from
      the selection. */
  method FilterWalkthrough()
  {
    var home := new HomePage();
    var routesRequest := home.BeginRouteFetch();
    home.CompleteRouteFetch(Some([Route("Red"), Route("Blue")]));

    var fetchVehicles, fetchTrips := home.SelectRoutes(["Red"]);
    assert fetchTrips && home.filter == Filter(["Red"], []);
    var tripRequest := home.BeginTripFetch();
    assert tripRequest == Some(TripQuery(["Red"]));
    home.CompleteTripFetch(Some([Trip("T1"), Trip("T2")]));

    fetchVehicles, fetchTrips := home.SelectTrips(["T1"]);
    assert fetchVehicles && !fetchTrips;
    var vehicleRequest := home.BeginVehicleFetch();
    assert vehicleRequest == VehicleQuery(["Red"], ["T1"], 5, 0);
  }

  /** The trip request for route Red, spelled out. */
  lemma WalkthroughTripRequest()
    ensures TripQuery(["Red"]) == "/trips?filter[route]=Red&page[limit]=20"
  {
    assert Join(["Red"], ',') == "Red";
  }

  /** The vehicle requests for route Red and trip T1 at offset 0, read
      back: the route and trip filters, the page size and the offset. */
  lemma WalkthroughVehicleRequest(limit: int)
    requires limit == 5 || limit == 10
    ensures Decode(VehicleQuery(["Red"], ["T1"], limit, 0)) == Request("/vehicles", [
      ("filter[route]", "Red"), ("fields[trip]", "T1"),
      ("page[limit]", if limit == 5 then "5" else "10"), ("page[offset]", "0")])
  {
    VehicleQueryDecodes(["Red"], ["T1"], limit, 0);
    WalkthroughRenderings();
  }

  lemma WalkthroughRenderings()
    ensures Join(["Red"], ',') == "Red" && Join(["T1"], ',') == "T1"
    ensures IntToString(5) == "5" && IntToString(10) == "10" && IntToString(0) == "0"
  {
  }

  /** A walkthrough of the page count: a `last` link at offset 20 shows 5
      pages of 5. */
  method TotalPageWalkthrough()
  {
    var home := new HomePage();
    var last := "/vehicles?page[offset]=20&page[limit]=5";
    home.CompleteVehicleFetch(Some(VehicleResponse([], Links("", last, "", ""))));
    TotalPagesExample();
    assert home.TotalPage() == Some(5);
  }

  /** A walkthrough of paging: with a `next` link and no `prev` link, prev
      changes nothing; three next steps reach offset 15, page 4; then the
      page size goes to 10 and the next request starts again at offset 0,
      with the filter kept. */
  method PagingWalkthrough(next: string)
    requires next != ""
  {
    var home := new HomePage();
    var fetchVehicles, fetchTrips := home.SelectRoutes(["Red"]);
    fetchVehicles, fetchTrips := home.SelectTrips(["T1"]);
    home.CompleteVehicleFetch(Some(VehicleResponse([], Links("", "", next, ""))));

    fetchVehicles := home.PrevPage();
    assert !fetchVehicles && home.page == Page(5, 0);
    fetchVehicles := home.NextPage();
    fetchVehicles := home.NextPage();
    fetchVehicles := home.NextPage();
    assert home.page == Page(5, 15) && home.ShownPageNumber() == 4;
    fetchVehicles := home.SetPageSize(10);
    assert fetchVehicles && home.page == Page(10, 0);
    var vehicleRequest := home.BeginVehicleFetch();
    assert vehicleRequest == VehicleQuery(["Red"], ["T1"], 10, 0);
  }
}
