/** The page arithmetic of the home page: the page-size choices, the page
    number shown between the arrows, the "Showing a to b of c data" line, and
    the total page count read out of the `last` link (`getTotalPage`). */
module Pagination {
  import opened Wrappers
  import opened Text

  /** The `links` object of a vehicle response. A link that the server
      leaves out, sends as null or sends empty is the empty string here: in
      every place the page reads a link, these behave alike. */
  datatype Links = Links(first: string, last: string, next: string, prev: string)

  const NoLinks := Links("", "", "", "")

  /** The `page` state: how many vehicles per request and from which one. */
  datatype Page = Page(limit: int, offset: int)

  const InitialPage := Page(5, 0)

  /** The options of the "Data per page" select. */
  predicate IsPageSize(n: int) { n == 5 || n == 10 || n == 15 }

  /** What every reachable `page` satisfies: a size the select offers and an
      offset that is a whole number of pages. */
  predicate WellFormed(p: Page)
  {
    IsPageSize(p.limit) && p.offset % p.limit == 0
  }

  // ---------------------------------------------------------------------
  // Total pages from the `last` link
  // ---------------------------------------------------------------------

  const OffsetMarker := "page[offset]="

  /** `last.split("page[offset]=")[1]`: the text between the first marker
      and the next one (or the end); None (undefined) without a marker. */
  function OffsetText(last: string): (r: Option<string>)
    ensures r.None? <==> Find(last, OffsetMarker).None?
    ensures r.Some? ==>
      var start := Find(last, OffsetMarker).value + |OffsetMarker|;
      start + |r.value| <= |last| && r.value == last[start..start + |r.value|]
    ensures r.Some? ==>
      var start := Find(last, OffsetMarker).value + |OffsetMarker|;
      (forall j: nat :: !OccursAt(r.value, OffsetMarker, j))
      && (start + |r.value| == |last| || OccursAt(last, OffsetMarker, start + |r.value|))
  {
    match Find(last, OffsetMarker)
    case None => None
    case Some(i) =>
      var start := i + |OffsetMarker|;
      var rest := last[start..];
      match Find(rest, OffsetMarker)
      case None => Some(rest)
      case Some(j) =>
        PieceBeforeMarker(rest, j);
        OccursInSuffix(last, start, j);
        Some(rest[..j])
  }

  /** The text before the first marker holds no marker. */
  lemma PieceBeforeMarker(rest: string, j: nat)
    requires Find(rest, OffsetMarker) == Some(j)
    ensures forall k: nat :: !OccursAt(rest[..j], OffsetMarker, k)
  {
    forall k: nat | OccursAt(rest[..j], OffsetMarker, k)
      ensures false
    {
      assert rest[..j][k..k + |OffsetMarker|] == rest[k..k + |OffsetMarker|];
      assert OccursAt(rest, OffsetMarker, k);
    }
  }

  lemma OccursInSuffix(s: string, start: nat, j: nat)
    requires start <= |s| && OccursAt(s[start..], OffsetMarker, j)
    ensures OccursAt(s, OffsetMarker, start + j)
  {
    var n := |OffsetMarker|;
    assert s[start..][j..j + n] == s[start + j..start + j + n];
  }

  /** `parseInt` of that text; None stands for NaN. */
  function LastOffset(last: string): (r: Option<int>)
    ensures Find(last, OffsetMarker).None? ==> r.None?
  {
    match OffsetText(last)
    case None => None
    case Some(t) => ParseInt(t)
  }

  /** Integer ceiling of `a / b`: the least `q` with `a <= q * b`. */
  function CeilDiv(a: int, b: int): (q: int)
    requires b > 0
    ensures (q - 1) * b < a <= q * b
  {
    var f := (-a) / b;
    assert f * b <= -a < f * b + b;
    -f
  }

  /** `getTotalPage()`: `Math.ceil(m / limit + 1)` for the offset `m` read
      out of the `last` link, NaN (None) when no offset can be read. The
      result `t` is the page count for which the last page, number `t - 1`
      counted from zero, starts at or after `m` and page `t - 2` before it. */
  function TotalPages(last: string, limit: int): (r: Option<int>)
    requires limit > 0
    ensures r.None? <==> LastOffset(last).None?
    ensures r.Some? ==>
      (r.value - 2) * limit < LastOffset(last).value <= (r.value - 1) * limit
  {
    match LastOffset(last)
    case None => None
    case Some(m) => Some(CeilDiv(m, limit) + 1)
  }

  /** An empty `last` link gives NaN. */
  lemma TotalPagesOfEmptyLink(limit: int)
    requires limit > 0
    ensures TotalPages("", limit) == None
  {
    assert !OccursAt("", OffsetMarker, 0);
  }

  /** A `last` link without the marker gives NaN. */
  lemma TotalPagesWithoutMarker(last: string, limit: int)
    requires limit > 0
    requires forall i: nat :: !OccursAt(last, OffsetMarker, i)
    ensures TotalPages(last, limit) == None
  {
  }

  /** A marker followed by no digit, either at once or after a sign, gives
      NaN. */
  lemma TotalPagesWithoutDigits(prefix: string, rest: string, limit: int)
    requires limit > 0
    requires forall i: nat :: !OccursAt(prefix, OffsetMarker, i)
    requires rest == [] || !IsDigit(rest[0])
    requires |rest| >= 2 && (rest[0] == '-' || rest[0] == '+') ==> !IsDigit(rest[1])
    ensures TotalPages(prefix + OffsetMarker + rest, limit) == None
  {
    var last := prefix + OffsetMarker + rest;
    FirstMarker(prefix, rest);
    var t := OffsetText(last).value;
    var start := |prefix| + |OffsetMarker|;
    assert last[start..] == rest;
    assert t == last[start..start + |t|];
    assert t == [] || t[0] == rest[0];
    assert |t| >= 2 ==> t[1] == rest[1];
    assert !HasHexPrefix(Unsigned(t));
  }

  /** The first marker of `prefix + marker + rest` is the one after `prefix`
      when `prefix` holds none: the marker's only `=` is its last character,
      so no occurrence can straddle the join. */
  lemma FirstMarker(prefix: string, rest: string)
    requires forall i: nat :: !OccursAt(prefix, OffsetMarker, i)
    ensures Find(prefix + OffsetMarker + rest, OffsetMarker) == Some(|prefix|)
  {
    var s := prefix + OffsetMarker + rest;
    var n := |OffsetMarker|;
    assert OccursAt(s, OffsetMarker, |prefix|) by {
      assert s[|prefix|..|prefix| + n] == OffsetMarker;
    }
    forall j: nat | j < |prefix| ensures !OccursAt(s, OffsetMarker, j) {
      if j + n <= |prefix| {
        assert prefix[j..j + n] == s[j..j + n];
        assert !OccursAt(prefix, OffsetMarker, j);
      } else {
        assert s[j + n - 1] == OffsetMarker[j + n - 1 - |prefix|];
        assert s[j + n - 1] != OffsetMarker[n - 1];
      }
    }
  }

  /** With no marker in `prefix`, the offset text of `prefix + marker + rest`
      is `rest` up to its own first marker. */
  lemma OffsetTextAfter(prefix: string, rest: string)
    requires forall i: nat :: !OccursAt(prefix, OffsetMarker, i)
    ensures OffsetText(prefix + OffsetMarker + rest)
         == Some(match Find(rest, OffsetMarker) case None => rest case Some(j) => rest[..j])
  {
    var last := prefix + OffsetMarker + rest;
    FirstMarker(prefix, rest);
    assert last[|prefix| + |OffsetMarker|..] == rest;
  }

  /** No marker starts inside the rendering of an integer: its characters
      are digits and '-', and the marker starts with 'p'. */
  lemma NoMarkerInRendering(m: int, suffix: string, j: nat)
    requires OccursAt(IntToString(m) + suffix, OffsetMarker, j)
    ensures j >= |IntToString(m)|
  {
    var d := IntToString(m);
    var rest := d + suffix;
    assert rest[j] == OffsetMarker[0];
  }

  /** The split piece that follows a rendered offset reads back as that
      offset, wherever the next marker (if any) falls. */
  lemma PieceOfRendering(m: int, suffix: string)
    requires suffix == [] || !IsDigit(suffix[0])
    requires m == 0 && suffix != [] ==> suffix[0] != 'x' && suffix[0] != 'X'
    ensures var rest := IntToString(m) + suffix;
      ParseInt(match Find(rest, OffsetMarker) case None => rest case Some(j) => rest[..j]) == Some(m)
  {
    var d := IntToString(m);
    var rest := d + suffix;
    match Find(rest, OffsetMarker)
    case None =>
      ParseIntOfIntToString(m, suffix);
    case Some(j) =>
      NoMarkerInRendering(m, suffix, j);
      var cut := suffix[..j - |d|];
      assert rest[..j] == d + cut;
      assert cut != [] ==> cut[0] == suffix[0];
      ParseIntOfIntToString(m, cut);
  }

  /** The offset read out of a link that renders `m` after its first
      marker is `m`. */
  lemma LastOffsetOfLink(prefix: string, m: int, suffix: string)
    requires forall i: nat :: !OccursAt(prefix, OffsetMarker, i)
    requires suffix == [] || !IsDigit(suffix[0])
    requires m == 0 && suffix != [] ==> suffix[0] != 'x' && suffix[0] != 'X'
    ensures LastOffset(prefix + OffsetMarker + IntToString(m) + suffix) == Some(m)
  {
    var rest := IntToString(m) + suffix;
    assert prefix + OffsetMarker + IntToString(m) + suffix == prefix + OffsetMarker + rest;
    OffsetTextAfter(prefix, rest);
    PieceOfRendering(m, suffix);
  }

  /** A `last` link that renders offset `m` after its first marker yields
      `ceil(m / limit) + 1` pages, whatever follows that does not continue
      the number. */
  lemma TotalPagesOfLink(prefix: string, m: int, suffix: string, limit: int)
    requires limit > 0
    requires forall i: nat :: !OccursAt(prefix, OffsetMarker, i)
    requires suffix == [] || !IsDigit(suffix[0])
    requires m == 0 && suffix != [] ==> suffix[0] != 'x' && suffix[0] != 'X'
    ensures TotalPages(prefix + OffsetMarker + IntToString(m) + suffix, limit)
         == Some(CeilDiv(m, limit) + 1)
  {
    var link := prefix + OffsetMarker + IntToString(m) + suffix;
    assert LastOffset(link) == Some(m) by { LastOffsetOfLink(prefix, m, suffix); }
  }

  /** Offset 20 at 5 vehicles a page gives 5 pages. */
  lemma TotalPagesExample()
    ensures TotalPages("/vehicles?page[offset]=20&page[limit]=5", 5) == Some(5)
  {
    var prefix := "/vehicles?";
    assert forall i: nat :: !OccursAt(prefix, OffsetMarker, i);
    assert IntToString(20) == "20";
    assert prefix + OffsetMarker + IntToString(20) + "&page[limit]=5"
        == "/vehicles?page[offset]=20&page[limit]=5";
    TotalPagesOfLink(prefix, 20, "&page[limit]=5", 5);
  }

  /** A hexadecimal offset is read as such: `page[offset]=0x14` is offset
      20, so 5 pages of 5. */
  lemma TotalPagesOfHexOffset()
    ensures TotalPages("/vehicles?page[offset]=0x14", 5) == Some(5)
  {
    var prefix := "/vehicles?";
    assert forall i: nat :: !OccursAt(prefix, OffsetMarker, i);
    assert prefix + OffsetMarker + "0x14" == "/vehicles?page[offset]=0x14";
    OffsetTextAfter(prefix, "0x14");
    assert Find("0x14", OffsetMarker).None?;
    ParseIntOfHexPrefix();
    assert LastOffset("/vehicles?page[offset]=0x14") == Some(20);
  }

  // ---------------------------------------------------------------------
  // Page number and range text
  // ---------------------------------------------------------------------

  /** `Math.floor(offset / limit) + 1`: the page whose vehicles include the
      one at `offset`, counting from one. */
  function PageNumber(offset: int, limit: int): (n: int)
    requires limit > 0
    ensures (n - 1) * limit <= offset < n * limit
  {
    var q := offset / limit;
    assert q * limit <= offset < q * limit + limit;
    q + 1
  }

  /** Moving the offset by one page moves the page number by exactly one. */
  lemma PageNumberStep(offset: int, limit: int)
    requires limit > 0
    ensures PageNumber(offset + limit, limit) == PageNumber(offset, limit) + 1
    ensures PageNumber(offset - limit, limit) == PageNumber(offset, limit) - 1
  {
    var n := PageNumber(offset, limit);
    var up := PageNumber(offset + limit, limit);
    var down := PageNumber(offset - limit, limit);
    assert (up - 1) * limit <= offset + limit < up * limit;
    assert (up - 2) * limit <= offset < (up - 1) * limit;
    Unique(offset, limit, n, up - 1);
    assert down * limit <= offset < (down + 1) * limit;
    Unique(offset, limit, n, down + 1);
  }

  lemma Unique(x: int, b: int, n: int, k: int)
    requires b > 0
    requires (n - 1) * b <= x < n * b
    requires (k - 1) * b <= x < k * b
    ensures n == k
  {
  }

  /** The numbers of "Showing {from} to {to} of {total} data"; a NaN total
      is None. */
  datatype Range = Range(from: int, to: int, total: Option<int>)

  function ShowingRange(p: Page, last: string): (r: Range)
    requires p.limit > 0
    ensures r.to - r.from + 1 == p.limit
    ensures r.total.None? <==> LastOffset(last).None?
    ensures r.total.Some? ==>
      LastOffset(last).value + p.limit <= r.total.value < LastOffset(last).value + 2 * p.limit
  {
    var total := TotalPages(last, p.limit);
    Range(p.offset + 1, p.offset + p.limit,
          if total.Some? then Some(p.limit * total.value) else None)
  }

  /** On a well-formed page the range is exactly the vehicles of the page
      number shown between the arrows. */
  lemma RangeIsShownPage(p: Page, last: string)
    requires WellFormed(p)
    ensures ShowingRange(p, last).from == (PageNumber(p.offset, p.limit) - 1) * p.limit + 1
    ensures ShowingRange(p, last).to == PageNumber(p.offset, p.limit) * p.limit
  {
    var q := p.offset / p.limit;
    assert p.offset == q * p.limit + p.offset % p.limit;
    assert p.offset == q * p.limit;
    assert PageNumber(p.offset, p.limit) == q + 1;
  }

  /** Up to the offset the `last` link names, the range never ends past the
      total it states. */
  lemma RangeWithinTotal(p: Page, last: string)
    requires p.limit > 0
    requires LastOffset(last).Some? && p.offset <= LastOffset(last).value
    ensures ShowingRange(p, last).total.Some?
    ensures ShowingRange(p, last).to <= ShowingRange(p, last).total.value
  {
    var m := LastOffset(last).value;
    var t := TotalPages(last, p.limit).value;
    PageEndBound(p.offset, m, p.limit, t);
  }

  lemma PageEndBound(offset: int, m: int, limit: int, t: int)
    requires offset <= m <= (t - 1) * limit
    ensures offset + limit <= limit * t
  {
  }
}
