/** The data pipeline behind the generic table: the query string of a page fetch, the
    normalisation of a response body into columns and rows, the type-dispatched row
    comparator and the sort it drives, and the table's page, page-size and expansion state. */
module GenericTable {
  import opened JsValues
  import opened Text

  // ================================================================ query builder

  /** One entry of the shared filter list: the query parameter `field=value`. */
  datatype Filter = Filter(field: string, value: string)

  /** A query parameter, `key=value`. */
  datatype Param = Param(key: string, value: string)

  function EncodeParam(p: Param): string
  {
    p.key + "=" + p.value
  }

  /** Splits one `key=value` piece at its first `=`. */
  function DecodeParam(piece: string): Param
  {
    var i := IndexOf(piece, '=');
    Param(piece[..i], if i < |piece| then piece[i + 1..] else "")
  }

  function EncodeParams(ps: seq<Param>): (pieces: seq<string>)
    ensures |pieces| == |ps|
    ensures forall i :: 0 <= i < |ps| ==> pieces[i] == EncodeParam(ps[i])
  {
    seq(|ps|, i requires 0 <= i < |ps| => EncodeParam(ps[i]))
  }

  /** The parameters joined as `k1=v1&k2=v2&...`. */
  function JoinParams(ps: seq<Param>): string
    requires |ps| > 0
  {
    Join(EncodeParams(ps), '&')
  }

  /** The parameters read back from the text after the `?` of a query. */
  function ParseParams(s: string): seq<Param>
  {
    var pieces := Split(s, '&');
    seq(|pieces|, i requires 0 <= i < |pieces| => DecodeParam(pieces[i]))
  }

  /** The parameters a page fetch sends, in order: offset, limit, one per filter in list
      order, then the start date and the end date when each is present. */
  function QueryParams(page: int, perPage: int, filters: seq<Filter>,
                       startDate: Option<string>, endDate: Option<string>): seq<Param>
  {
    [Param("offset", IntToString((page - 1) * perPage)), Param("limit", IntToString(perPage))]
    + FilterParams(filters)
    + DateParam("start_date", startDate)
    + DateParam("end_date", endDate)
  }

  function FilterParams(filters: seq<Filter>): seq<Param>
  {
    seq(|filters|, i requires 0 <= i < |filters| => Param(filters[i].field, filters[i].value))
  }

  /** `filters.reduce((acc, f) => acc + `&${f.field}=${f.value}`, "")`: a left fold that
      appends one `&field=value` piece per filter. */
  function FilterSuffix(filters: seq<Filter>): string
  {
    if |filters| == 0 then ""
    else
      var f := filters[|filters| - 1];
      FilterSuffix(filters[..|filters| - 1]) + ("&" + f.field + "=" + f.value)
  }

  /** The text `&key=value` that appending a parameter adds to a query. */
  function Amp(p: Param): string
  {
    "&" + EncodeParam(p)
  }

  /** The URL of a page fetch, `fetchData`'s `query`. The dates are the `format()` text of
      the selected start and end dates, `None` when a date is not selected. */
  function BuildQuery(apiUrl: string, dataPath: string, page: int, perPage: int,
                      filters: seq<Filter>, startDate: Option<string>, endDate: Option<string>)
    : (query: string)
    ensures query == apiUrl + dataPath + "?" + JoinParams(QueryParams(page, perPage, filters, startDate, endDate))
  {
    var offset := (page - 1) * perPage;
    var head := [Param("offset", IntToString(offset)), Param("limit", IntToString(perPage))];
    var q0 := apiUrl + dataPath + ("?offset=" + IntToString(offset) + "&limit=" + IntToString(perPage));
    var q1 := q0 + FilterSuffix(filters);
    var q2 := WithDate(q1, "&start_date=", startDate);
    var q3 := WithDate(q2, "&end_date=", endDate);
    var prefix := apiUrl + dataPath + "?";
    var ps1 := head + FilterParams(filters);
    var ps2 := ps1 + DateParam("start_date", startDate);
    QueryHead(apiUrl + dataPath, IntToString(offset), IntToString(perPage));
    assert q0 == prefix + JoinParams(head);
    QueryFilters(prefix, head, filters);
    assert q1 == prefix + JoinParams(ps1);
    DateTexts();
    QueryDate(prefix, ps1, "start_date", "&start_date=", startDate);
    assert q2 == prefix + JoinParams(ps2);
    QueryDate(prefix, ps2, "end_date", "&end_date=", endDate);
    q3
  }

  lemma DateTexts()
    ensures "&start_date=" == "&" + "start_date" + "=" && "&end_date=" == "&" + "end_date" + "="
  {
  }

  lemma QueryHead(base: string, offset: string, limit: string)
    ensures base + ("?offset=" + offset + "&limit=" + limit)
         == base + "?" + JoinParams([Param("offset", offset), Param("limit", limit)])
  {
    HeadJoin(offset, limit);
    assert "?offset=" == "?" + "offset=";
  }

  lemma QueryFilters(prefix: string, head: seq<Param>, filters: seq<Filter>)
    requires |head| > 0
    ensures prefix + JoinParams(head) + FilterSuffix(filters) == prefix + JoinParams(head + FilterParams(filters))
  {
    FilterSuffixJoins(head, filters);
  }

  lemma QueryDate(prefix: string, ps: seq<Param>, key: string, text: string, date: Option<string>)
    requires |ps| > 0
    requires text == "&" + key + "="
    ensures WithDate(prefix + JoinParams(ps), text, date) == prefix + JoinParams(ps + DateParam(key, date))
  {
    AppendDate(ps, key, date);
    if date.Some? {
      AmpText(key, date.value);
    }
  }

  /** `if (date) query += `${text}${date.format()}``: a date is appended only when one is
      selected. */
  function WithDate(query: string, text: string, date: Option<string>): string
  {
    if date.Some? then query + (text + date.value) else query
  }

  /** The parameter for a date, if one is selected. */
  function DateParam(key: string, date: Option<string>): seq<Param>
  {
    if date.Some? then [Param(key, date.value)] else []
  }

  lemma HeadJoin(offset: string, limit: string)
    ensures JoinParams([Param("offset", offset), Param("limit", limit)]) == "offset=" + offset + "&limit=" + limit
  {
    var e := EncodeParams([Param("offset", offset), Param("limit", limit)]);
    assert e[1..] == [e[1]];
    assert Join(e, '&') == e[0] + ['&'] + e[1];
    assert "offset" + "=" == "offset=";
    assert ['&'] + "limit" + "=" == "&limit=";
  }

  /** The piece a template literal `&${key}=${value}` adds is the encoded parameter. */
  lemma AmpText(key: string, value: string)
    ensures "&" + key + "=" + value == Amp(Param(key, value))
  {
  }

  lemma AppendDate(ps: seq<Param>, key: string, date: Option<string>)
    requires |ps| > 0
    ensures JoinParams(ps + DateParam(key, date))
         == if date.Some? then JoinParams(ps) + Amp(Param(key, date.value)) else JoinParams(ps)
  {
    if date.Some? {
      AppendParam(ps, Param(key, date.value));
    } else {
      assert ps + DateParam(key, date) == ps;
    }
  }

  lemma AppendParam(ps: seq<Param>, p: Param)
    requires |ps| > 0
    ensures JoinParams(ps + [p]) == JoinParams(ps) + Amp(p)
  {
    assert EncodeParams(ps + [p]) == EncodeParams(ps) + [EncodeParam(p)];
    JoinSnoc(EncodeParams(ps), EncodeParam(p), '&');
  }

  lemma FilterParamsSnoc(head: seq<Param>, filters: seq<Filter>)
    requires |filters| > 0
    ensures var f := filters[|filters| - 1];
            head + FilterParams(filters) == (head + FilterParams(filters[..|filters| - 1])) + [Param(f.field, f.value)]
  {
    var f := filters[|filters| - 1];
    assert FilterParams(filters) == FilterParams(filters[..|filters| - 1]) + [Param(f.field, f.value)];
  }

  /** Folding the filters onto a query appends their parameters in list order. */
  lemma {:induction false} FilterSuffixJoins(head: seq<Param>, filters: seq<Filter>)
    requires |head| > 0
    ensures JoinParams(head) + FilterSuffix(filters) == JoinParams(head + FilterParams(filters))
  {
    if |filters| == 0 {
      assert head + FilterParams(filters) == head;
    } else {
      var init := filters[..|filters| - 1];
      var f := filters[|filters| - 1];
      var p := Param(f.field, f.value);
      var text := "&" + f.field + "=" + f.value;
      FilterSuffixJoins(head, init);
      FilterParamsSnoc(head, filters);
      AppendParam(head + FilterParams(init), p);
      AmpText(f.field, f.value);
      calc {
        JoinParams(head) + FilterSuffix(filters);
        JoinParams(head) + (FilterSuffix(init) + text);
        (JoinParams(head) + FilterSuffix(init)) + text;
        JoinParams(head + FilterParams(init)) + Amp(p);
        JoinParams(head + FilterParams(filters));
      }
    }
  }

  /** A filter or date that can be read back out of a query string: no `&` anywhere and
      no `=` in a parameter name. */
  predicate Readable(p: Param)
  {
    '&' !in p.key && '=' !in p.key && '&' !in p.value
  }

  /** Decoding inverts encoding for readable parameters. */
  lemma {:induction false} ParseJoinedParams(ps: seq<Param>)
    requires |ps| > 0
    requires AllReadable(ps)
    ensures ParseParams(JoinParams(ps)) == ps
  {
    var pieces := EncodeParams(ps);
    forall k | 0 <= k < |pieces| ensures '&' !in pieces[k] {
      assert pieces[k] == ps[k].key + "=" + ps[k].value;
    }
    SplitJoin(pieces, '&');
    forall k | 0 <= k < |ps| ensures DecodeParam(pieces[k]) == ps[k] {
      var piece := pieces[k];
      var key := ps[k].key;
      assert piece == key + "=" + ps[k].value;
      assert piece[|key|] == '=';
      assert forall m :: 0 <= m < |key| ==> piece[m] == key[m];
      assert IndexOf(piece, '=') == |key|;
      assert piece[..|key|] == key;
      assert piece[|key| + 1..] == ps[k].value;
    }
  }

  /** The query is the API URL and data path, a `?`, and exactly the parameters of
      `QueryParams`: reading them back gives the offset, the limit, one parameter per filter
      in list order, then `start_date` and `end_date` each only when its date is present. */
  lemma QueryRoundTrip(apiUrl: string, dataPath: string, page: int, perPage: int,
                       filters: seq<Filter>, startDate: Option<string>, endDate: Option<string>)
    requires forall i :: 0 <= i < |filters| ==> Readable(Param(filters[i].field, filters[i].value))
    requires startDate.Some? ==> '&' !in startDate.value
    requires endDate.Some? ==> '&' !in endDate.value
    ensures var query := BuildQuery(apiUrl, dataPath, page, perPage, filters, startDate, endDate);
            var n := |apiUrl| + |dataPath| + 1;
            && n <= |query|
            && query[..n] == apiUrl + dataPath + "?"
            && ParseParams(query[n..]) == QueryParams(page, perPage, filters, startDate, endDate)
  {
    var ps := QueryParams(page, perPage, filters, startDate, endDate);
    QueryParamsReadable(page, perPage, filters, startDate, endDate);
    ParseJoinedParams(ps);
    PrefixSlices(apiUrl + dataPath + "?", JoinParams(ps));
  }

  lemma QueryParamsReadable(page: int, perPage: int, filters: seq<Filter>,
                            startDate: Option<string>, endDate: Option<string>)
    requires forall i :: 0 <= i < |filters| ==> Readable(Param(filters[i].field, filters[i].value))
    requires startDate.Some? ==> '&' !in startDate.value
    requires endDate.Some? ==> '&' !in endDate.value
    ensures AllReadable(QueryParams(page, perPage, filters, startDate, endDate))
  {
    var head := [Param("offset", IntToString((page - 1) * perPage)), Param("limit", IntToString(perPage))];
    LiteralKeys();
    IntRoundTrip((page - 1) * perPage);
    IntRoundTrip(perPage);
    assert AllReadable(head);
    assert AllReadable(FilterParams(filters));
    ReadableConcat(head, FilterParams(filters));
    ReadableConcat(head + FilterParams(filters), DateParam("start_date", startDate));
    ReadableConcat(head + FilterParams(filters) + DateParam("start_date", startDate), DateParam("end_date", endDate));
  }

  predicate AllReadable(ps: seq<Param>)
  {
    forall i :: 0 <= i < |ps| ==> Readable(ps[i])
  }

  lemma ReadableConcat(a: seq<Param>, b: seq<Param>)
    requires AllReadable(a) && AllReadable(b)
    ensures AllReadable(a + b)
  {
    forall i | 0 <= i < |a + b| ensures Readable((a + b)[i]) {
      if i >= |a| {
        assert (a + b)[i] == b[i - |a|];
      }
    }
  }

  lemma LiteralKeys()
    ensures Readable(Param("offset", "")) && Readable(Param("limit", ""))
    ensures Readable(Param("start_date", "")) && Readable(Param("end_date", ""))
  {
  }

  lemma PrefixSlices(prefix: string, rest: string)
    ensures (prefix + rest)[..|prefix|] == prefix && (prefix + rest)[|prefix|..] == rest
  {
  }

  /** Where each parameter sits: the offset is `(page - 1) * perPage`, the limit is
      `perPage`, filter `i` is parameter `2 + i`, the start date follows the filters and the
      end date comes last, each only when present. */
  lemma QueryParamsLayout(page: int, perPage: int, filters: seq<Filter>,
                          startDate: Option<string>, endDate: Option<string>)
    ensures var ps := QueryParams(page, perPage, filters, startDate, endDate);
            && |ps| == 2 + |filters| + (if startDate.Some? then 1 else 0) + (if endDate.Some? then 1 else 0)
            && ps[0].key == "offset" && ParseInt(ps[0].value) == Some((page - 1) * perPage)
            && ps[1].key == "limit" && ParseInt(ps[1].value) == Some(perPage)
            && (forall i :: 0 <= i < |filters| ==> ps[2 + i] == Param(filters[i].field, filters[i].value))
            && (startDate.Some? ==> ps[2 + |filters|] == Param("start_date", startDate.value))
            && (endDate.Some? ==> ps[|ps| - 1] == Param("end_date", endDate.value))
  {
    var head := [Param("offset", IntToString((page - 1) * perPage)), Param("limit", IntToString(perPage))];
    var a := head + FilterParams(filters);
    var b := a + DateParam("start_date", startDate);
    var ps := QueryParams(page, perPage, filters, startDate, endDate);
    assert ps == b + DateParam("end_date", endDate);
    assert ps[0] == head[0] && ps[1] == head[1];
    forall i | 0 <= i < |filters| ensures ps[2 + i] == Param(filters[i].field, filters[i].value) {
      assert ps[2 + i] == b[2 + i] == a[2 + i];
    }
    if startDate.Some? {
      assert ps[2 + |filters|] == b[2 + |filters|];
    }
    IntRoundTrip((page - 1) * perPage);
    IntRoundTrip(perPage);
  }

  // ================================================================ response normaliser

  /** One property of a record, in enumeration order. */
  datatype Field = Field(name: string, value: Cell)

  /** An API record: its properties in `Object.keys` order. */
  type Record = seq<Field>

  /** `Object.keys(record)`. */
  function Keys(r: Record): seq<string>
  {
    seq(|r|, i requires 0 <= i < |r| => r[i].name)
  }

  /** `Object.values(record)`. */
  function Values(r: Record): Row
  {
    seq(|r|, i requires 0 <= i < |r| => r[i].value)
  }

  /** Columns, rows and total count of the table. */
  datatype TableData = TableData(columns: seq<string>, rows: seq<Row>, count: int)

  /** The table data a successful response body `{data, count}` yields. */
  function Normalize(data: seq<Record>, count: int): (t: TableData)
    ensures |t.rows| == |data|
    ensures data == [] ==> t == TableData([], [], 0)
    ensures data != [] ==> |t.columns| == |data[0]| && t.count == count
    ensures forall i :: 0 <= i < |data| ==> |t.rows[i]| == |data[i]|
  {
    if |data| == 0 then TableData([], [], 0)
    else TableData(Keys(data[0]), seq(|data|, i requires 0 <= i < |data| => Values(data[i])), count)
  }

  /** Every record lists the same keys in the same order as the first. */
  predicate Uniform(data: seq<Record>)
  {
    forall i :: 0 <= i < |data| ==> Keys(data[i]) == Keys(data[0])
  }

  /** The record a row stands for, pairing each value with its column by position. */
  function Zip(columns: seq<string>, row: Row): (r: Record)
    requires |columns| == |row|
    ensures |r| == |row|
  {
    seq(|row|, i requires 0 <= i < |row| => Field(columns[i], row[i]))
  }

  function Records(t: TableData): seq<Record>
    requires forall i :: 0 <= i < |t.rows| ==> |t.rows[i]| == |t.columns|
  {
    seq(|t.rows|, i requires 0 <= i < |t.rows| => Zip(t.columns, t.rows[i]))
  }

  /** Normalisation loses nothing when the records share their key order: pairing each
      row's values with the columns by position gives back exactly the records. */
  lemma NormalizeRoundTrip(data: seq<Record>, count: int)
    requires Uniform(data)
    ensures var t := Normalize(data, count);
            && (forall i :: 0 <= i < |t.rows| ==> |t.rows[i]| == |t.columns|)
            && Records(t) == data
  {
    var t := Normalize(data, count);
    if |data| > 0 {
      forall i | 0 <= i < |data| ensures |t.rows[i]| == |t.columns| && Zip(t.columns, t.rows[i]) == data[i] {
        assert |Keys(data[i])| == |Keys(data[0])|;
        forall j | 0 <= j < |data[i]| ensures Zip(t.columns, t.rows[i])[j] == data[i][j] {
          assert t.columns[j] == Keys(data[i])[j] == data[i][j].name;
        }
      }
    }
  }

  // ================================================================ sort engine

  datatype Direction = Asc | Desc

  /** What one call of the sort comparator does: return a number (its sign orders the pair)
      or throw a `TypeError`. */
  datatype Verdict = Order(n: int) | Thrown

  /** `receiver.localeCompare(that)`: only a string has the method, and it compares itself
      with the string form of its argument under the collation `collate`. */
  function LocaleCompare(receiver: Cell, that: Cell, collate: (string, string) -> int): (r: Verdict)
    ensures r.Thrown? <==> !receiver.Str?
    ensures receiver.Str? && that.Str? ==> r == Order(collate(receiver.s, that.s))
    ensures receiver.Str? && that == Null ==> r == Order(collate(receiver.s, "null"))
  {
    if receiver.Str? then Order(collate(receiver.s, ToStr(that))) else Thrown
  }

  /** The comparator `onSort` hands to `rows.sort`. A number in `a`'s cell selects the
      numeric difference, where a NaN result counts as 0; otherwise the string comparison,
      where an ascending call with a falsy left cell falls through to the descending
      expression, and a call that returns nothing counts as 0. */
  function CompareRows(a: Row, b: Row, index: int, direction: Direction,
                       collate: (string, string) -> int): (r: Verdict)
    ensures var x, y := CellAt(a, index), CellAt(b, index);
            && (x.Num? ==> r == if ToNumber(y).None? then Order(0)
                               else if direction == Asc then Order(x.n - ToNumber(y).value)
                               else Order(ToNumber(y).value - x.n))
            && (x.Num? && y.Num? ==> r == Order(if direction == Asc then x.n - y.n else y.n - x.n))
            && (r.Thrown? <==> !x.Num? && if direction == Asc && Truthy(x) then !x.Str? else Truthy(y) && !y.Str?)
            && (!x.Num? && !(direction == Asc && Truthy(x)) && !Truthy(y) ==> r == Order(0))
            && (!x.Num? && direction == Asc && Truthy(x) ==> r == LocaleCompare(x, y, collate))
            && (!x.Num? && !(direction == Asc && Truthy(x)) && Truthy(y) ==> r == LocaleCompare(y, x, collate))
  {
    var x, y := CellAt(a, index), CellAt(b, index);
    if x.Num? then
      match ToNumber(y)
      case None => Order(0)
      case Some(m) => if direction == Asc then Order(x.n - m) else Order(m - x.n)
    else if direction == Asc && Truthy(x) then LocaleCompare(x, y, collate)
    else if Truthy(y) then LocaleCompare(y, x, collate)
    else Order(0)
  }

  /** The comparator `onSort` passes to `rows.sort`, for one column and direction. */
  function Comparator(index: int, direction: Direction, collate: (string, string) -> int): (Row, Row) -> Verdict
  {
    (a: Row, b: Row) => CompareRows(a, b, index, direction, collate)
  }

  /** The comparator places `a` no later than `b`. */
  predicate NotAfter(cmp: (Row, Row) -> Verdict, a: Row, b: Row)
  {
    cmp(a, b).Order? && cmp(a, b).n <= 0
  }

  /** The comparator places `a` after `b`. */
  predicate After(cmp: (Row, Row) -> Verdict, a: Row, b: Row)
  {
    cmp(a, b).Order? && cmp(a, b).n > 0
  }

  /** Every neighbouring pair is in comparator order. */
  predicate Sorted(s: seq<Row>, cmp: (Row, Row) -> Verdict)
  {
    forall k :: 0 <= k < |s| - 1 ==> NotAfter(cmp, s[k], s[k + 1])
  }

  /** On these rows the comparator never claims both that `a` goes after `b` and that `b`
      goes after `a` (or throws on the swapped pair). */
  ghost predicate Consistent(rows: seq<Row>, cmp: (Row, Row) -> Verdict)
  {
    forall a, b :: a in rows && b in rows && After(cmp, a, b) ==> NotAfter(cmp, b, a)
  }

  /** A collation with `localeCompare`'s sign symmetry. */
  ghost predicate Antisymmetric(collate: (string, string) -> int)
  {
    forall x, y :: collate(x, y) > 0 <==> collate(y, x) < 0
  }

  /** Code-point order of two strings: -1, 0 or 1. It agrees with the code-unit order of
      JavaScript's `<` on characters of the Basic Multilingual Plane. */
  function CodeUnitOrder(x: string, y: string): int
  {
    if x == [] && y == [] then 0
    else if x == [] then -1
    else if y == [] then 1
    else if x[0] < y[0] then -1
    else if x[0] > y[0] then 1
    else CodeUnitOrder(x[1..], y[1..])
  }

  lemma {:induction false} CodeUnitOrderAntisymmetric(x: string, y: string)
    ensures CodeUnitOrder(x, y) > 0 <==> CodeUnitOrder(y, x) < 0
  {
    if x != [] && y != [] && x[0] == y[0] {
      CodeUnitOrderAntisymmetric(x[1..], y[1..]);
    }
  }

  /** `rows.sort(cmp)`: the rows are sorted into a fresh sequence, and a comparator call
      that throws abandons the sort and leaves the rows as they were. Which pairs get
      compared is up to the engine; this one inserts each row into a sorted prefix. */
  method SortRows(rows: seq<Row>, cmp: (Row, Row) -> Verdict) returns (sorted: seq<Row>, thrown: bool)
    ensures multiset(sorted) == multiset(rows)
    ensures thrown ==> sorted == rows
    ensures thrown ==> exists i, j :: 0 <= i < |rows| && 0 <= j < |rows| && i != j && cmp(rows[i], rows[j]).Thrown?
    ensures !thrown && Consistent(rows, cmp) ==> Sorted(sorted, cmp)
  {
    var s: seq<Row> := [];
    var k := 0;
    while k < |rows|
      invariant 0 <= k <= |rows|
      invariant multiset(s) == multiset(rows[..k])
      invariant Consistent(rows, cmp) ==> Sorted(s, cmp)
    {
      var x := rows[k];
      var j, failed := FindSlot(s, x, cmp);
      if failed {
        ThrowWitness(rows, k, s, cmp);
        return rows, true;
      }
      InsertStep(rows, k, s, j, cmp);
      s := s[..j] + [x] + s[j..];
      k := k + 1;
    }
    assert rows[..k] == rows;
    return s, false;
  }

  /** A comparison of an already sorted row with the next input row that throws is a
      comparison of two input rows at different positions. */
  lemma ThrowWitness(rows: seq<Row>, k: nat, s: seq<Row>, cmp: (Row, Row) -> Verdict)
    requires k < |rows| && multiset(s) == multiset(rows[..k])
    requires exists m :: 0 <= m < |s| && cmp(s[m], rows[k]).Thrown?
    ensures exists i, j :: 0 <= i < |rows| && 0 <= j < |rows| && i != j && cmp(rows[i], rows[j]).Thrown?
  {
    var m :| 0 <= m < |s| && cmp(s[m], rows[k]).Thrown?;
    assert s[m] in multiset(rows[..k]);
    var i :| 0 <= i < k && rows[i] == s[m];
    assert cmp(rows[i], rows[k]).Thrown?;
  }

  /** One insertion step keeps the sorted prefix a permutation of the rows consumed so far
      and, for a consistent comparator, sorted. */
  lemma InsertStep(rows: seq<Row>, k: nat, s: seq<Row>, j: nat, cmp: (Row, Row) -> Verdict)
    requires k < |rows| && j <= |s|
    requires multiset(s) == multiset(rows[..k])
    requires Consistent(rows, cmp) ==> Sorted(s, cmp)
    requires j > 0 ==> NotAfter(cmp, s[j - 1], rows[k])
    requires forall m :: j <= m < |s| ==> After(cmp, s[m], rows[k])
    ensures multiset(s[..j] + [rows[k]] + s[j..]) == multiset(rows[..k + 1])
    ensures Consistent(rows, cmp) ==> Sorted(s[..j] + [rows[k]] + s[j..], cmp)
  {
    InsertPermutes(rows, k, s, j);
    if Consistent(rows, cmp) {
      forall m | j <= m < |s| ensures s[m] in rows {
        InPrefix(rows, k, s, m);
      }
      InsertKeepsSorted(s, j, rows[k], rows, cmp);
    }
  }

  lemma InsertPermutes(rows: seq<Row>, k: nat, s: seq<Row>, j: nat)
    requires k < |rows| && j <= |s|
    requires multiset(s) == multiset(rows[..k])
    ensures multiset(s[..j] + [rows[k]] + s[j..]) == multiset(rows[..k + 1])
  {
    assert rows[..k + 1] == rows[..k] + [rows[k]];
    assert s == s[..j] + s[j..];
  }

  lemma InPrefix(rows: seq<Row>, k: nat, s: seq<Row>, m: nat)
    requires k <= |rows| && m < |s|
    requires multiset(s) == multiset(rows[..k])
    ensures s[m] in rows
  {
    assert s[m] in multiset(rows[..k]);
    assert s[m] in rows[..k];
  }

  /** Scans a sorted prefix from its end for the place of `x`: after the last row that goes
      no later than `x`. */
  method FindSlot(s: seq<Row>, x: Row, cmp: (Row, Row) -> Verdict) returns (j: nat, thrown: bool)
    ensures thrown ==> exists m :: 0 <= m < |s| && cmp(s[m], x).Thrown?
    ensures !thrown ==> j <= |s|
    ensures !thrown && j > 0 ==> NotAfter(cmp, s[j - 1], x)
    ensures !thrown ==> forall m :: j <= m < |s| ==> After(cmp, s[m], x)
  {
    j := |s|;
    while j > 0
      invariant 0 <= j <= |s|
      invariant forall m :: j <= m < |s| ==> After(cmp, s[m], x)
    {
      var v := cmp(s[j - 1], x);
      if v.Thrown? {
        return j, true;
      }
      if v.n <= 0 {
        return j, false;
      }
      j := j - 1;
    }
    return j, false;
  }

  /** Inserting `x` after the rows that go no later than it and before the rows that go
      after it keeps a sorted sequence sorted. */
  lemma InsertKeepsSorted(s: seq<Row>, j: nat, x: Row, rows: seq<Row>, cmp: (Row, Row) -> Verdict)
    requires j <= |s|
    requires Sorted(s, cmp)
    requires Consistent(rows, cmp)
    requires x in rows && forall m :: j <= m < |s| ==> s[m] in rows
    requires j > 0 ==> NotAfter(cmp, s[j - 1], x)
    requires forall m :: j <= m < |s| ==> After(cmp, s[m], x)
    ensures Sorted(s[..j] + [x] + s[j..], cmp)
  {
    var t := s[..j] + [x] + s[j..];
    forall k | 0 <= k < |t| - 1 ensures NotAfter(cmp, t[k], t[k + 1]) {
      if k + 1 < j {
        assert t[k] == s[k] && t[k + 1] == s[k + 1];
      } else if k + 1 == j {
        assert t[k] == s[j - 1] && t[k + 1] == x;
      } else if k == j {
        assert t[k] == x && t[k + 1] == s[j];
      } else {
        assert t[k] == s[k - 1] && t[k + 1] == s[k];
      }
    }
  }

  // ---------------------------------------------------------------- comparator properties

  /** Every row holds a number in the sorted column. */
  predicate NumericColumn(rows: seq<Row>, index: int)
  {
    forall r :: r in rows ==> CellAt(r, index).Num?
  }

  /** On a column of numbers the comparator never throws and is consistent, for either
      direction and any collation. */
  lemma NumericColumnConsistent(rows: seq<Row>, index: int, direction: Direction, collate: (string, string) -> int)
    requires NumericColumn(rows, index)
    ensures forall a, b :: a in rows && b in rows ==> CompareRows(a, b, index, direction, collate).Order?
    ensures Consistent(rows, Comparator(index, direction, collate))
  {
    var cmp := Comparator(index, direction, collate);
    forall a, b | a in rows && b in rows && After(cmp, a, b) ensures NotAfter(cmp, b, a) {
      assert CellAt(a, index).Num? && CellAt(b, index).Num?;
    }
  }

  /** What `SortRows` promises, specialised to a column of numbers: no comparison throws,
      the column stays numeric, and it ends up in the direction's order. */
  lemma NumericSortOutcome(rows: seq<Row>, sorted: seq<Row>, thrown: bool,
                           index: int, direction: Direction, collate: (string, string) -> int)
    requires NumericColumn(rows, index)
    requires multiset(sorted) == multiset(rows)
    requires thrown ==> exists i, j :: 0 <= i < |rows| && 0 <= j < |rows| && i != j &&
                                       Comparator(index, direction, collate)(rows[i], rows[j]).Thrown?
    requires !thrown && Consistent(rows, Comparator(index, direction, collate)) ==>
               Sorted(sorted, Comparator(index, direction, collate))
    ensures !thrown && NumericColumn(sorted, index)
    ensures forall i, j :: 0 <= i <= j < |sorted| ==>
              if direction == Asc then CellAt(sorted[i], index).n <= CellAt(sorted[j], index).n
              else CellAt(sorted[i], index).n >= CellAt(sorted[j], index).n
  {
    NumericColumnConsistent(rows, index, direction, collate);
    forall r | r in sorted ensures CellAt(r, index).Num? {
      assert r in multiset(sorted);
    }
    SortedNumericColumn(sorted, index, direction, collate);
  }

  /** A sorted column of numbers is non-decreasing when ascending and non-increasing when
      descending, between any two positions and not only neighbours. */
  lemma {:induction false} SortedNumericColumn(s: seq<Row>, index: int, direction: Direction, collate: (string, string) -> int)
    requires NumericColumn(s, index)
    requires Sorted(s, Comparator(index, direction, collate))
    ensures forall i, j :: 0 <= i <= j < |s| ==>
              if direction == Asc then CellAt(s[i], index).n <= CellAt(s[j], index).n
              else CellAt(s[i], index).n >= CellAt(s[j], index).n
  {
    if |s| > 1 {
      var cmp := Comparator(index, direction, collate);
      var t := s[1..];
      forall k | 0 <= k < |t| - 1 ensures NotAfter(cmp, t[k], t[k + 1]) {
        assert t[k] == s[k + 1] && t[k + 1] == s[k + 2];
      }
      assert forall r :: r in t ==> r in s;
      SortedNumericColumn(t, index, direction, collate);
      assert NotAfter(cmp, s[0], s[1]);
      assert CellAt(s[0], index).Num? && CellAt(s[1], index).Num?;
      forall i, j | 0 <= i <= j < |s|
        ensures if direction == Asc then CellAt(s[i], index).n <= CellAt(s[j], index).n
                else CellAt(s[i], index).n >= CellAt(s[j], index).n
      {
        if i > 0 {
          assert s[i] == t[i - 1] && s[j] == t[j - 1];
        } else if j > 0 {
          assert s[1] == t[0] && s[j] == t[j - 1];
        }
      }
    }
  }

  /** The descending comparator is consistent on a column of strings and nulls whenever the
      collation has `localeCompare`'s sign symmetry. */
  lemma DescendingStringsConsistent(rows: seq<Row>, index: int, collate: (string, string) -> int)
    requires forall r :: r in rows ==> CellAt(r, index).Str? || CellAt(r, index).Null?
    requires Antisymmetric(collate)
    ensures Consistent(rows, Comparator(index, Desc, collate))
  {
    var cmp := Comparator(index, Desc, collate);
    forall a, b | a in rows && b in rows && After(cmp, a, b) ensures NotAfter(cmp, b, a) {
      var x, y := CellAt(a, index), CellAt(b, index);
      assert y.Str? && y.s != "";
      assert collate(y.s, ToStr(x)) > 0;
      if Truthy(x) {
        assert collate(x.s, y.s) < 0;
      }
    }
  }

  /** The ascending comparator is consistent on a column of non-empty strings. */
  lemma AscendingStringsConsistent(rows: seq<Row>, index: int, collate: (string, string) -> int)
    requires forall r :: r in rows ==> CellAt(r, index).Str? && CellAt(r, index).s != ""
    requires Antisymmetric(collate)
    ensures Consistent(rows, Comparator(index, Asc, collate))
  {
    var cmp := Comparator(index, Asc, collate);
    forall a, b | a in rows && b in rows && After(cmp, a, b) ensures NotAfter(cmp, b, a) {
      var x, y := CellAt(a, index), CellAt(b, index);
      assert collate(x.s, y.s) > 0;
      assert collate(y.s, x.s) < 0;
    }
  }

  /** Every row holds a non-empty string in the column. */
  predicate StringColumn(rows: seq<Row>, index: int)
  {
    forall r :: r in rows ==> CellAt(r, index).Str? && CellAt(r, index).s != ""
  }

  /** A column of non-empty strings sorted by the comparator is in collation order between
      neighbours: `a.localeCompare(b) <= 0` ascending and `b.localeCompare(a) <= 0`
      descending. */
  lemma SortedStringColumn(s: seq<Row>, index: int, direction: Direction, collate: (string, string) -> int)
    requires StringColumn(s, index)
    requires Sorted(s, Comparator(index, direction, collate))
    ensures forall k :: 0 <= k < |s| - 1 ==>
              if direction == Asc then collate(CellAt(s[k], index).s, CellAt(s[k + 1], index).s) <= 0
              else collate(CellAt(s[k + 1], index).s, CellAt(s[k], index).s) <= 0
  {
    var cmp := Comparator(index, direction, collate);
    forall k | 0 <= k < |s| - 1
      ensures if direction == Asc then collate(CellAt(s[k], index).s, CellAt(s[k + 1], index).s) <= 0
              else collate(CellAt(s[k + 1], index).s, CellAt(s[k], index).s) <= 0
    {
      assert NotAfter(cmp, s[k], s[k + 1]);
      assert s[k] in s && s[k + 1] in s;
    }
  }

  /** What `SortRows` promises, specialised to a column of non-empty strings under a
      sign-symmetric collation: no comparison throws, the column stays a string column, and
      it ends up in collation order. */
  lemma StringSortOutcome(rows: seq<Row>, sorted: seq<Row>, thrown: bool,
                          index: int, direction: Direction, collate: (string, string) -> int)
    requires StringColumn(rows, index) && Antisymmetric(collate)
    requires multiset(sorted) == multiset(rows)
    requires thrown ==> exists i, j :: 0 <= i < |rows| && 0 <= j < |rows| && i != j &&
                                       Comparator(index, direction, collate)(rows[i], rows[j]).Thrown?
    requires !thrown && Consistent(rows, Comparator(index, direction, collate)) ==>
               Sorted(sorted, Comparator(index, direction, collate))
    ensures !thrown && StringColumn(sorted, index)
    ensures forall k :: 0 <= k < |sorted| - 1 ==>
              if direction == Asc then collate(CellAt(sorted[k], index).s, CellAt(sorted[k + 1], index).s) <= 0
              else collate(CellAt(sorted[k + 1], index).s, CellAt(sorted[k], index).s) <= 0
  {
    forall i, j | 0 <= i < |rows| && 0 <= j < |rows|
      ensures Comparator(index, direction, collate)(rows[i], rows[j]).Order?
    {
      assert rows[i] in rows && rows[j] in rows;
    }
    if direction == Asc {
      AscendingStringsConsistent(rows, index, collate);
    } else {
      DescendingStringsConsistent(rows, index, collate);
    }
    forall r | r in sorted ensures CellAt(r, index).Str? && CellAt(r, index).s != "" {
      assert r in multiset(sorted);
    }
    SortedStringColumn(sorted, index, direction, collate);
  }

  /** How the two directions relate. With numbers in both cells, or in neither, an ascending
      call is the descending call with the rows swapped, except for a string cell pair whose
      left cell is falsy and right cell truthy: there the ascending call computes the
      descending expression `b.localeCompare(a)` unchanged. */
  lemma DirectionsMirror(a: Row, b: Row, index: int, collate: (string, string) -> int)
    requires CellAt(a, index).Num? <==> CellAt(b, index).Num?
    ensures var x, y := CellAt(a, index), CellAt(b, index);
            && (x.Num? || Truthy(x) || !Truthy(y) ==>
                  CompareRows(a, b, index, Asc, collate) == CompareRows(b, a, index, Desc, collate))
            && (!x.Num? && !Truthy(x) && Truthy(y) ==>
                  CompareRows(a, b, index, Asc, collate) == CompareRows(a, b, index, Desc, collate))
  {
  }

  /** The ascending fall-through is kept as the source has it, and it makes the ascending
      comparator inconsistent: under code-unit collation a null cell sorts after `"z"` and
      `"z"` sorts after the null cell, while the descending comparator is consistent on the
      same rows. */
  lemma AscendingFallthroughInconsistent()
    ensures CompareRows([Null], [Str("z")], 0, Asc, CodeUnitOrder) == Order(1)
    ensures CompareRows([Str("z")], [Null], 0, Asc, CodeUnitOrder) == Order(1)
    ensures !Consistent([[Null], [Str("z")]], Comparator(0, Asc, CodeUnitOrder))
    ensures Consistent([[Null], [Str("z")]], Comparator(0, Desc, CodeUnitOrder))
  {
    assert ToStr(Null) == "null";
    assert CodeUnitOrder("z", "null") == 1;
    var rows := [[Null], [Str("z")]];
    var cmp := Comparator(0, Asc, CodeUnitOrder);
    assert [Null] in rows && [Str("z")] in rows;
    assert After(cmp, [Null], [Str("z")]) && !NotAfter(cmp, [Str("z")], [Null]);
    forall x, y ensures CodeUnitOrder(x, y) > 0 <==> CodeUnitOrder(y, x) < 0 {
      CodeUnitOrderAntisymmetric(x, y);
    }
    DescendingStringsConsistent(rows, 0, CodeUnitOrder);
  }

  // ================================================================ expansion map

  /** The cell `(rowIndex, columnIndex)` is the expanded one of its row. */
  predicate Expanded(cells: map<int, int>, rowIndex: int, columnIndex: int)
  {
    rowIndex in cells && cells[rowIndex] == columnIndex
  }

  /** The expansion map after the user toggles cell `(rowIndex, columnIndex)`. */
  function Toggled(cells: map<int, int>, rowIndex: int, columnIndex: int): (next: map<int, int>)
    ensures Expanded(next, rowIndex, columnIndex) <==> !Expanded(cells, rowIndex, columnIndex)
    ensures rowIndex in next <==> !Expanded(cells, rowIndex, columnIndex)
    ensures forall c :: c != columnIndex ==> !Expanded(next, rowIndex, c)
    ensures forall r :: r != rowIndex ==> (r in next <==> r in cells)
    ensures forall r :: r != rowIndex && r in cells ==> next[r] == cells[r]
  {
    if Expanded(cells, rowIndex, columnIndex) then cells - {rowIndex} else cells[rowIndex := columnIndex]
  }

  /** Toggling the same cell twice restores the map when the row was collapsed or had that
      cell open; when the row had another cell open, the row ends up collapsed. */
  lemma ToggleTwice(cells: map<int, int>, rowIndex: int, columnIndex: int)
    ensures !Expanded(cells, rowIndex, columnIndex) && rowIndex in cells ==>
              Toggled(Toggled(cells, rowIndex, columnIndex), rowIndex, columnIndex) == cells - {rowIndex}
    ensures Expanded(cells, rowIndex, columnIndex) || rowIndex !in cells ==>
              Toggled(Toggled(cells, rowIndex, columnIndex), rowIndex, columnIndex) == cells
  {
    var twice := Toggled(Toggled(cells, rowIndex, columnIndex), rowIndex, columnIndex);
    if Expanded(cells, rowIndex, columnIndex) {
      assert twice.Keys == cells.Keys;
    } else if rowIndex !in cells {
      assert twice.Keys == cells.Keys;
    } else {
      assert twice.Keys == (cells - {rowIndex}).Keys;
    }
  }

  // ================================================================ the table component

  /** What the fetch promise chain receives: a rejection (network failure or a body that is
      not JSON), a response whose status is not OK, or an OK response with its parsed body. */
  datatype FetchOutcome =
    | Rejected(message: string)
    | NotOk(status: int, statusText: string)
    | Ok(body: JsonBody)

  /** The parsed body: `null`/`undefined`, or an object whose `data` member is an array of
      records or is missing. */
  datatype JsonBody = NullBody | Body(data: Option<seq<Record>>, count: int)

  /** A call of the notification sink's `sendError(title, detail)`. */
  datatype Notification = Notification(title: string, detail: Option<string>)

  /** The message of the `TypeError` thrown by reading `length` of a missing `data`. */
  const MissingDataMessage := "Cannot read properties of undefined (reading 'length')"

  class Table {
    var columns: seq<string>
    var rows: seq<Row>
    var count: int
    var expandedCells: map<int, int>
    var activeSortIndex: int
    var activeSortDirection: Direction
    var page: int
    var perPage: int

    /** The state of a freshly mounted table. */
    constructor ()
      ensures columns == [] && rows == [] && count == 0 && expandedCells == map[]
      ensures activeSortIndex == -1 && activeSortDirection == Desc
      ensures page == 1 && perPage == 10
    {
      columns, rows, count, expandedCells := [], [], 0, map[];
      activeSortIndex, activeSortDirection := -1, Desc;
      page, perPage := 1, 10;
    }

    function Data(): TableData
      reads this
    {
      TableData(columns, rows, count)
    }

    /** The URL `fetchData` requests for the current page and page size. */
    function Query(apiUrl: string, dataPath: string, filters: seq<Filter>,
                   startDate: Option<string>, endDate: Option<string>): string
      reads this
    {
      BuildQuery(apiUrl, dataPath, page, perPage, filters, startDate, endDate)
    }

    /** Handles the outcome of a page fetch. A failure is reported and leaves the data as it
        was; a null body changes nothing and reports nothing; a body replaces the columns,
        rows and count with its normalised form. */
    method ApplyResponse(outcome: FetchOutcome) returns (notice: Option<Notification>)
      modifies this
      ensures outcome.Rejected? ==> notice == Some(Notification(outcome.message, None))
      ensures outcome.NotOk? ==>
                notice == Some(Notification("Failed to fetch data.",
                                            Some(IntToString(outcome.status) + ": " + outcome.statusText)))
      ensures outcome == Ok(NullBody) ==> notice == None
      ensures outcome.Ok? && outcome.body.Body? && outcome.body.data.None? ==>
                notice == Some(Notification(MissingDataMessage, None))
      ensures notice.Some? || outcome == Ok(NullBody) ==> Data() == old(Data())
      ensures outcome.Ok? && outcome.body.Body? && outcome.body.data.Some? ==>
                notice == None && Data() == Normalize(outcome.body.data.value, outcome.body.count)
      ensures expandedCells == old(expandedCells) && page == old(page) && perPage == old(perPage)
      ensures activeSortIndex == old(activeSortIndex) && activeSortDirection == old(activeSortDirection)
    {
      match outcome
      case Rejected(message) =>
        notice := Some(Notification(message, None));
      case NotOk(status, statusText) =>
        notice := Some(Notification("Failed to fetch data.", Some(IntToString(status) + ": " + statusText)));
      case Ok(NullBody) =>
        notice := None;
      case Ok(Body(None, _)) =>
        notice := Some(Notification(MissingDataMessage, None));
      case Ok(Body(Some(data), total)) =>
        notice := None;
        if |data| == 0 {
          columns, rows, count := [], [], 0;
        } else {
          columns := Keys(data[0]);
          rows := seq(|data|, i requires 0 <= i < |data| => Values(data[i]));
          count := total;
        }
    }

    /** `onSort`: records the sorted column and direction, then sorts the rows with the
        type-dispatched comparator. A comparator call that throws leaves the rows as they
        were; a column of numbers always sorts, into ascending or descending numeric order. */
    method Sort(index: int, direction: Direction, collate: (string, string) -> int) returns (thrown: bool)
      modifies this
      ensures activeSortIndex == index && activeSortDirection == direction
      ensures multiset(rows) == multiset(old(rows))
      ensures thrown ==> rows == old(rows)
      ensures thrown ==> exists i, j :: 0 <= i < |rows| && 0 <= j < |rows| && i != j &&
                                        CompareRows(rows[i], rows[j], index, direction, collate).Thrown?
      ensures !thrown && Consistent(old(rows), Comparator(index, direction, collate)) ==>
                Sorted(rows, Comparator(index, direction, collate))
      ensures NumericColumn(old(rows), index) ==>
                && !thrown
                && NumericColumn(rows, index)
                && forall i, j :: 0 <= i <= j < |rows| ==>
                     if direction == Asc then CellAt(rows[i], index).n <= CellAt(rows[j], index).n
                     else CellAt(rows[i], index).n >= CellAt(rows[j], index).n
      ensures StringColumn(old(rows), index) && Antisymmetric(collate) ==>
                && !thrown
                && StringColumn(rows, index)
                && forall k :: 0 <= k < |rows| - 1 ==>
                     if direction == Asc then collate(CellAt(rows[k], index).s, CellAt(rows[k + 1], index).s) <= 0
                     else collate(CellAt(rows[k + 1], index).s, CellAt(rows[k], index).s) <= 0
      ensures columns == old(columns) && count == old(count) && expandedCells == old(expandedCells)
      ensures page == old(page) && perPage == old(perPage)
    {
      activeSortIndex := index;
      activeSortDirection := direction;
      var sorted, failed := SortRows(rows, Comparator(index, direction, collate));
      if NumericColumn(rows, index) {
        NumericSortOutcome(rows, sorted, failed, index, direction, collate);
      }
      if StringColumn(rows, index) && Antisymmetric(collate) {
        StringSortOutcome(rows, sorted, failed, index, direction, collate);
      }
      rows := sorted;
      thrown := failed;
    }

    /** `onSetPage`: moves to `newPage` and collapses every row. */
    method SetPage(newPage: int)
      modifies this
      ensures page == newPage && expandedCells == map[]
      ensures perPage == old(perPage) && Data() == old(Data())
      ensures forall apiUrl, dataPath, filters, startDate, endDate ::
                Query(apiUrl, dataPath, filters, startDate, endDate)
                == BuildQuery(apiUrl, dataPath, newPage, old(perPage), filters, startDate, endDate)
      ensures activeSortIndex == old(activeSortIndex) && activeSortDirection == old(activeSortDirection)
    {
      page := newPage;
      expandedCells := map[];
    }

    /** `onPerPageSelect`: sets the page size; a size beyond the total count also returns to
        page 1 and collapses every row, otherwise the page and expansions are kept. */
    method PerPageSelect(newPerPage: int)
      modifies this
      ensures perPage == newPerPage
      ensures newPerPage > old(count) ==> page == 1 && expandedCells == map[]
      ensures newPerPage <= old(count) ==> page == old(page) && expandedCells == old(expandedCells)
      ensures forall apiUrl, dataPath, filters, startDate, endDate ::
                Query(apiUrl, dataPath, filters, startDate, endDate)
                == BuildQuery(apiUrl, dataPath, if newPerPage > old(count) then 1 else old(page), newPerPage,
                              filters, startDate, endDate)
      ensures Data() == old(Data())
      ensures activeSortIndex == old(activeSortIndex) && activeSortDirection == old(activeSortDirection)
    {
      if newPerPage > count {
        page := 1;
        perPage := newPerPage;
        expandedCells := map[];
      } else {
        perPage := newPerPage;
      }
    }

    /** `setCellExpanded`: with `expanded` false, opens the cell (replacing any other open
        cell of the row); with `expanded` true, collapses the row. Other rows keep theirs. */
    method SetCellExpanded(rowIndex: int, columnIndex: int, expanded: bool)
      modifies this
      ensures !expanded ==> expandedCells == old(expandedCells)[rowIndex := columnIndex]
      ensures expanded ==> expandedCells == old(expandedCells) - {rowIndex}
      ensures page == old(page) && perPage == old(perPage) && Data() == old(Data())
      ensures activeSortIndex == old(activeSortIndex) && activeSortDirection == old(activeSortDirection)
    {
      if !expanded {
        expandedCells := expandedCells[rowIndex := columnIndex];
      } else {
        expandedCells := expandedCells - {rowIndex};
      }
    }

    /** `compoundExpandParams(...).isExpanded`. */
    predicate IsExpanded(rowIndex: int, columnIndex: int)
      reads this
    {
      Expanded(expandedCells, rowIndex, columnIndex)
    }

    /** `compoundExpandParams(...).onToggle`. */
    method Toggle(rowIndex: int, columnIndex: int)
      modifies this
      ensures expandedCells == Toggled(old(expandedCells), rowIndex, columnIndex)
      ensures IsExpanded(rowIndex, columnIndex) <==> !old(IsExpanded(rowIndex, columnIndex))
      ensures page == old(page) && perPage == old(perPage) && Data() == old(Data())
      ensures activeSortIndex == old(activeSortIndex) && activeSortDirection == old(activeSortDirection)
    {
      SetCellExpanded(rowIndex, columnIndex, IsExpanded(rowIndex, columnIndex));
    }
  }
}
