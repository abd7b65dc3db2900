/** The three request paths the home page sends, as its template literals
    build them, and a reading of a request path back into its parameters
    (the way the transit API takes `key=value` pairs apart at `&` and a list
    filter apart at `,`), so that what the page sends can be checked
    against what it means. */
module Queries {
  import opened Wrappers
  import opened Text

  const RoutesRequest := "/routes?page[limit]=20"

  /** The trip request: `/trips?filter[route]=${filter.routes}&page[limit]=20`. */
  function TripQuery(routes: seq<string>): string
  {
    "/trips?filter[route]=" + Join(routes, ',') + "&page[limit]=20"
  }

  /** The vehicle request: `/vehicles?filter[route]=${filter.routes}`
      `&fields[trip]=${filter.trips}&page[limit]=${page.limit}`
      `&page[offset]=${page.offset}`. */
  function VehicleQuery(routes: seq<string>, trips: seq<string>, limit: int, offset: int): string
  {
    "/vehicles?filter[route]=" + Join(routes, ',') + "&fields[trip]=" + Join(trips, ',')
      + "&page[limit]=" + IntToString(limit) + "&page[offset]=" + IntToString(offset)
  }

  // ---------------------------------------------------------------------
  // Reading a request back
  // ---------------------------------------------------------------------

  datatype Request = Request(path: string, params: seq<(string, string)>)

  /** A `key=value` piece; a piece without `=` is a key with an empty value. */
  function KeyValue(piece: string): (kv: (string, string))
    ensures '=' !in kv.0
  {
    match BreakAt(piece, '=')
    case None => (piece, "")
    case Some(cut) => cut
  }

  function Params(pieces: seq<string>): (ps: seq<(string, string)>)
    ensures |ps| == |pieces|
    ensures forall i :: 0 <= i < |pieces| ==> ps[i] == KeyValue(pieces[i])
    decreases |pieces|
  {
    if |pieces| == 0 then [] else [KeyValue(pieces[0])] + Params(pieces[1..])
  }

  /** The path before the first `?` and the `&`-separated pairs after it. */
  function Decode(q: string): (r: Request)
    ensures '?' !in q ==> r == Request(q, [])
  {
    match BreakAt(q, '?')
    case None => Request(q, [])
    case Some(cut) => Request(cut.0, Params(Split(cut.1, '&')))
  }

  /** A comma-separated list filter; the empty value is the empty list. */
  function ListValue(v: string): (xs: seq<string>)
    ensures forall i :: 0 <= i < |xs| ==> ',' !in xs[i]
  {
    if v == "" then [] else Split(v, ',')
  }

  /** An array rendered into a request reads back as the same list, the empty
      array included, provided no id is empty or holds a comma. */
  lemma ListValueOfJoin(xs: seq<string>)
    requires forall i :: 0 <= i < |xs| ==> xs[i] != "" && ',' !in xs[i]
    ensures ListValue(Join(xs, ',')) == xs
  {
    if |xs| > 0 {
      SplitJoin(xs, ',');
    }
  }

  /** A request path is cut at its first `?`. */
  lemma DecodeAt(path: string, query: string)
    requires '?' !in path
    ensures Decode(path + "?" + query) == Request(path, Params(Split(query, '&')))
  {
    var q := path + "?" + query;
    assert q == path + ['?'] + query;
    BreakAtFirst(path, '?', query);
    assert BreakAt(q, '?') == Some((path, query));
  }

  /** One `key=value` piece in front of the rest of a query. */
  lemma ParamsCons(key: string, value: string, rest: string)
    requires '=' !in key && '&' !in key && '&' !in value
    ensures Params(Split(key + "=" + value + "&" + rest, '&'))
         == [(key, value)] + Params(Split(rest, '&'))
  {
    var piece := key + "=" + value;
    var tail := "&" + rest;
    assert piece == key + ['='] + value;
    assert '&' !in piece;
    assert key + "=" + value + "&" + rest == piece + tail;
    SplitPrefix(piece, tail, '&');
    assert tail[0] == '&' && tail[1..] == rest;
    var t := Split(tail, '&');
    assert t == [""] + Split(rest, '&');
    assert piece + t[0] == piece;
    var pieces := [piece] + t[1..];
    assert Split(piece + tail, '&') == pieces;
    BreakAtFirst(key, '=', value);
    assert KeyValue(piece) == (key, value);
    assert pieces[1..] == Split(rest, '&');
  }

  /** The last `key=value` piece of a query. */
  lemma ParamsLast(key: string, value: string)
    requires '=' !in key && '&' !in key && '&' !in value
    ensures Params(Split(key + "=" + value, '&')) == [(key, value)]
  {
    var piece := key + "=" + value;
    SplitJoin([piece], '&');
    assert piece == key + ['='] + value;
    BreakAtFirst(key, '=', value);
  }

  lemma RenderingAvoids(i: int, c: char)
    requires c != '-' && !IsDigit(c)
    ensures c !in IntToString(i)
  {
    if i < 0 {
      assert IntToString(i) == "-" + NatToString(-i);
    }
  }

  /** Two `key=value` pieces read back as those pairs. */
  lemma ParamsTwo(k1: string, v1: string, k2: string, v2: string)
    requires '=' !in k1 && '&' !in k1 && '&' !in v1
    requires '=' !in k2 && '&' !in k2 && '&' !in v2
    ensures Params(Split(k1 + "=" + v1 + "&" + (k2 + "=" + v2), '&')) == [(k1, v1), (k2, v2)]
  {
    ParamsLast(k2, v2);
    ParamsCons(k1, v1, k2 + "=" + v2);
  }

  lemma PrependToTwo(x: (string, string), y: (string, string), z: (string, string))
    ensures [x] + [y, z] == [x, y, z]
  {
  }

  lemma PrependToThree(w: (string, string), x: (string, string), y: (string, string), z: (string, string))
    ensures [w] + [x, y, z] == [w, x, y, z]
  {
  }

  /** Three `key=value` pieces read back as those pairs. */
  lemma ParamsThree(k1: string, v1: string, k2: string, v2: string, k3: string, v3: string)
    requires '=' !in k1 && '&' !in k1 && '&' !in v1
    requires '=' !in k2 && '&' !in k2 && '&' !in v2
    requires '=' !in k3 && '&' !in k3 && '&' !in v3
    ensures Params(Split(k1 + "=" + v1 + "&" + (k2 + "=" + v2 + "&" + (k3 + "=" + v3)), '&'))
         == [(k1, v1), (k2, v2), (k3, v3)]
  {
    var tail := k2 + "=" + v2 + "&" + (k3 + "=" + v3);
    var ps := Params(Split(tail, '&'));
    assert ps == [(k2, v2), (k3, v3)] by { ParamsTwo(k2, v2, k3, v3); }
    assert Params(Split(k1 + "=" + v1 + "&" + tail, '&')) == [(k1, v1)] + ps by {
      ParamsCons(k1, v1, tail);
    }
    PrependToTwo((k1, v1), (k2, v2), (k3, v3));
  }

  /** A path with two `key=value` pairs reads back as those pairs. */
  lemma DecodeTwo(path: string, k1: string, v1: string, k2: string, v2: string)
    requires '?' !in path
    requires '=' !in k1 && '&' !in k1 && '&' !in v1
    requires '=' !in k2 && '&' !in k2 && '&' !in v2
    ensures Decode(path + "?" + (k1 + "=" + v1 + "&" + (k2 + "=" + v2)))
         == Request(path, [(k1, v1), (k2, v2)])
  {
    ParamsTwo(k1, v1, k2, v2);
    DecodeAt(path, k1 + "=" + v1 + "&" + (k2 + "=" + v2));
  }

  /** A path with four `key=value` pairs reads back as those pairs. */
  lemma DecodeFour(path: string, k1: string, v1: string, k2: string, v2: string,
                   k3: string, v3: string, k4: string, v4: string)
    requires '?' !in path
    requires '=' !in k1 && '&' !in k1 && '&' !in v1
    requires '=' !in k2 && '&' !in k2 && '&' !in v2
    requires '=' !in k3 && '&' !in k3 && '&' !in v3
    requires '=' !in k4 && '&' !in k4 && '&' !in v4
    ensures Decode(path + "?" + (k1 + "=" + v1 + "&" + (k2 + "=" + v2 + "&" + (k3 + "=" + v3 + "&" + (k4 + "=" + v4)))))
         == Request(path, [(k1, v1), (k2, v2), (k3, v3), (k4, v4)])
  {
    var tail := k2 + "=" + v2 + "&" + (k3 + "=" + v3 + "&" + (k4 + "=" + v4));
    var ps := Params(Split(tail, '&'));
    assert ps == [(k2, v2), (k3, v3), (k4, v4)] by { ParamsThree(k2, v2, k3, v3, k4, v4); }
    assert Params(Split(k1 + "=" + v1 + "&" + tail, '&')) == [(k1, v1)] + ps by {
      ParamsCons(k1, v1, tail);
    }
    PrependToThree((k1, v1), (k2, v2), (k3, v3), (k4, v4));
    DecodeAt(path, k1 + "=" + v1 + "&" + tail);
  }

  /** A path with one `key=value` pair reads back as that pair. */
  lemma DecodeOne(path: string, k: string, v: string)
    requires '?' !in path
    requires '=' !in k && '&' !in k && '&' !in v
    ensures Decode(path + "?" + (k + "=" + v)) == Request(path, [(k, v)])
  {
    ParamsLast(k, v);
    DecodeAt(path, k + "=" + v);
  }

  // ---------------------------------------------------------------------
  // What each request carries
  // ---------------------------------------------------------------------

  lemma Regroup2(p: string, k1: string, a: string, k2: string, b: string)
    ensures p + "?" + (k1 + "=" + a + "&" + (k2 + "=" + b))
         == (p + "?" + k1 + "=") + a + ("&" + k2 + "=" + b)
  {
  }

  lemma Regroup4(p: string, k1: string, a: string, k2: string, b: string,
                 k3: string, c: string, k4: string, d: string)
    ensures p + "?" + (k1 + "=" + a + "&" + (k2 + "=" + b + "&" + (k3 + "=" + c + "&" + (k4 + "=" + d))))
         == (p + "?" + k1 + "=") + a + ("&" + k2 + "=") + b + ("&" + k3 + "=") + c + ("&" + k4 + "=") + d
  {
  }

  lemma RouteKeys()
    ensures '?' !in "/routes"
    ensures '=' !in "page[limit]" && '&' !in "page[limit]" && '&' !in "20"
  {
  }

  lemma RouteText()
    ensures RoutesRequest == "/routes" + "?" + ("page[limit]" + "=" + "20")
  {
  }

  /** The route request names `/routes` and carries only the limit of 20. */
  lemma RoutesRequestDecodes()
    ensures Decode(RoutesRequest) == Request("/routes", [("page[limit]", "20")])
  {
    RouteKeys();
    RouteText();
    DecodeOne("/routes", "page[limit]", "20");
  }

  lemma VehicleKeys()
    ensures '?' !in "/vehicles"
    ensures '=' !in "filter[route]" && '&' !in "filter[route]"
    ensures '=' !in "fields[trip]" && '&' !in "fields[trip]"
    ensures '=' !in "page[limit]" && '&' !in "page[limit]"
    ensures '=' !in "page[offset]" && '&' !in "page[offset]"
  {
  }

  lemma VehicleKeyTexts()
    ensures "/vehicles" + "?" + "filter[route]" + "=" == "/vehicles?filter[route]="
    ensures "&" + "fields[trip]" + "=" == "&fields[trip]="
    ensures "&" + "page[limit]" + "=" == "&page[limit]="
    ensures "&" + "page[offset]" + "=" == "&page[offset]="
  {
  }

  /** The vehicle request names the `/vehicles` resource and carries exactly
      the route filter, the trip filter, the limit and the offset, in that
      order, provided no id holds an `&`. */
  lemma VehicleQueryDecodes(routes: seq<string>, trips: seq<string>, limit: int, offset: int)
    requires forall i :: 0 <= i < |routes| ==> '&' !in routes[i]
    requires forall i :: 0 <= i < |trips| ==> '&' !in trips[i]
    ensures Decode(VehicleQuery(routes, trips, limit, offset)) == Request("/vehicles", [
      ("filter[route]", Join(routes, ',')),
      ("fields[trip]", Join(trips, ',')),
      ("page[limit]", IntToString(limit)),
      ("page[offset]", IntToString(offset))])
  {
    var r, t := Join(routes, ','), Join(trips, ',');
    var l, o := IntToString(limit), IntToString(offset);
    var q := "/vehicles" + "?" + ("filter[route]" + "=" + r + "&" + ("fields[trip]" + "=" + t + "&"
      + ("page[limit]" + "=" + l + "&" + ("page[offset]" + "=" + o))));
    assert VehicleQuery(routes, trips, limit, offset) == q by {
      Regroup4("/vehicles", "filter[route]", r, "fields[trip]", t, "page[limit]", l, "page[offset]", o);
      VehicleKeyTexts();
    }
    assert Decode(q) == Request("/vehicles", [("filter[route]", r), ("fields[trip]", t), ("page[limit]", l), ("page[offset]", o)]) by {
      JoinAvoids(routes, ',', '&');
      JoinAvoids(trips, ',', '&');
      RenderingAvoids(limit, '&');
      RenderingAvoids(offset, '&');
      VehicleKeys();
      DecodeFour("/vehicles", "filter[route]", r, "fields[trip]", t, "page[limit]", l, "page[offset]", o);
    }
  }

  lemma TripKeys()
    ensures '?' !in "/trips"
    ensures '=' !in "filter[route]" && '&' !in "filter[route]"
    ensures '=' !in "page[limit]" && '&' !in "page[limit]" && '&' !in "20"
  {
  }

  lemma TripKeyTexts()
    ensures "/trips" + "?" + "filter[route]" + "=" == "/trips?filter[route]="
    ensures "&" + "page[limit]" + "=" + "20" == "&page[limit]=20"
  {
  }

  /** The trip request names `/trips` and carries the route filter and the
      fixed limit of 20, provided no id holds an `&`. */
  lemma TripQueryDecodes(routes: seq<string>)
    requires forall i :: 0 <= i < |routes| ==> '&' !in routes[i]
    ensures Decode(TripQuery(routes)) == Request("/trips", [
      ("filter[route]", Join(routes, ',')),
      ("page[limit]", "20")])
  {
    var r := Join(routes, ',');
    var q := "/trips" + "?" + ("filter[route]" + "=" + r + "&" + ("page[limit]" + "=" + "20"));
    assert TripQuery(routes) == q by {
      TripKeyTexts();
      Regroup2("/trips", "filter[route]", r, "page[limit]", "20");
    }
    assert Decode(q) == Request("/trips", [("filter[route]", r), ("page[limit]", "20")]) by {
      JoinAvoids(routes, ',', '&');
      TripKeys();
      DecodeTwo("/trips", "filter[route]", r, "page[limit]", "20");
    }
  }
}
