/** find_cheapest_apartments of find_cheapest_apartments.py: the apartments of
    at most 40 square metres, grouped by location in ascending order, with the
    three cheapest of each location listed in a fixed text layout. The
    database is a value (its rows and whether it can be reached), whether the
    report file can be written is a flag, and number formatting is a
    parameter. */
module Cheapest {
  import opened Text
  import opened Seq

  /** A row of bayut_properties as the query selects it (baths is unused). */
  datatype Apartment = Apartment(id: int, title: string, price: Option<real>, rooms: Option<int>,
                                 area: Option<real>, location: Option<string>, url: string)

  /** The table, and whether connecting and querying succeed. */
  datatype Db = Db(table: seq<Apartment>, reachable: bool)

  /** The f-string formatters f"{x:,.2f}" and f"{x:.2f}". */
  datatype Format = Format(money: real -> string, fixed: real -> string)

  /** WHERE area <= 40; a NULL area does not pass. */
  predicate SmallEnough(a: Apartment) {
    a.area.Some? && a.area.value <= 40.0
  }

  /** The rows the query returns (ORDER BY only settles ties, see README). */
  function Query(t: seq<Apartment>): seq<Apartment> {
    Filter(t, SmallEnough)
  }

  /** sort_values('price'): prices ascending, NaN last. */
  function PriceKey(a: Apartment): Key {
    if a.price.Some? then Value(a.price.value) else Missing
  }

  function AtLocation(loc: string): Apartment -> bool {
    (a: Apartment) => a.location == Some(loc)
  }

  function NameOf(a: Apartment): seq<string> {
    if a.location.Some? then [a.location.value] else []
  }

  /** Some location is NULL while another is a string. */
  predicate Mixed(rows: seq<Apartment>) {
    (exists i :: 0 <= i < |rows| && rows[i].location.None?)
    && (exists j :: 0 <= j < |rows| && rows[j].location.Some?)
  }

  /** sorted(df['location'].unique()); Python cannot order None against a
      string, so a mixture raises and the function returns None. A lone NULL
      location is skipped by the loop, so it is left out here. */
  function Locations(rows: seq<Apartment>): Option<seq<string>> {
    if Mixed(rows) then None else Some(SortUnique(FlatMap(rows, NameOf)))
  }

  /** df[df['location'] == location].sort_values('price').head(3). */
  function Cheapest3(rows: seq<Apartment>, loc: string): seq<Apartment> {
    TopK(rows, AtLocation(loc), PriceKey, 3)
  }

  const Title: string := "Три самых дешевых квартиры (площадь до 40 кв.м.) в каждой локации:\n"

  const Rule: string := "------------------------------"

  /** A NaN cell read as 0. */
  function OrZero(x: Option<real>): real {
    if x.Some? then x.value else 0.0
  }

  /** The seven lines of the i-th apartment of a location. */
  function Entry(i: nat, a: Apartment, f: Format): seq<string> {
    [ NatToString(i) + ". " + a.title,
      "   ID: " + IntToString(a.id),
      "   Цена: " + f.money(OrZero(a.price)) + " AED",
      "   Площадь: " + f.fixed(OrZero(a.area)) + " кв.м.",
      "   Спальни: " + IntToString(if a.rooms.Some? then a.rooms.value else 0),
      "   Ссылка: " + a.url,
      "" ]
  }

  function EntryOf(f: Format): (nat, Apartment) -> seq<string> {
    (i: nat, a: Apartment) => Entry(i, a, f)
  }

  /** Every rendering has seven lines. */
  ghost predicate SevenLines(render: (nat, Apartment) -> seq<string>) {
    forall i, a :: |render(i, a)| == 7
  }

  lemma EntryWidth(f: Format)
    ensures SevenLines(EntryOf(f))
  {
  }

  /** A location block: the location line, the rule, the apartments rendered
      with their numbers from 1, and a blank line. */
  function Block(loc: string, top: seq<Apartment>, render: (nat, Apartment) -> seq<string>): seq<string> {
    ["Локация: " + loc, Rule] + Numbered(top, render, |top|) + [""]
  }

  /** The lines of one location, or none for an empty name or no rows. */
  function LocationLines(rows: seq<Apartment>, loc: string, f: Format): seq<string> {
    if loc == "" || Cheapest3(rows, loc) == [] then [] else Block(loc, Cheapest3(rows, loc), EntryOf(f))
  }

  /** The blocks of the first n locations. */
  function Blocks(rows: seq<Apartment>, locs: seq<string>, f: Format, n: nat): seq<string>
    requires n <= |locs|
  {
    if n == 0 then [] else Blocks(rows, locs, f, n - 1) + LocationLines(rows, locs[n - 1], f)
  }

  function ReportLines(rows: seq<Apartment>, locs: seq<string>, f: Format): seq<string> {
    [Title] + Blocks(rows, locs, f, |locs|)
  }

  /** The analysis: None when the database cannot be reached, no apartment
      qualifies, the locations cannot be sorted or the report file cannot be
      written; the lines joined by newlines otherwise. */
  function Analysis(db: Db, f: Format, writable: bool): Option<string> {
    if !db.reachable then None
    else
      var rows := Query(db.table);
      if rows == [] then None
      else
        match Locations(rows)
        case None => None
        case Some(locs) => if writable then Some(Join(ReportLines(rows, locs, f), "\n")) else None
  }

  /** The lines appended for one location: the inner loop over its rows. */
  method AppendLocation(rows: seq<Apartment>, location: string, f: Format) returns (lines: seq<string>)
    ensures lines == LocationLines(rows, location, f)
  {
    if location == "" {
      return [];
    }
    var cheapest := Cheapest3(rows, location);
    if |cheapest| == 0 {
      return [];
    }
    lines := ["Локация: " + location, Rule];
    for i := 0 to |cheapest|
      invariant lines == ["Локация: " + location, Rule] + Numbered(cheapest, EntryOf(f), i)
    {
      AppendAssoc(["Локация: " + location, Rule], Numbered(cheapest, EntryOf(f), i), Entry(i + 1, cheapest[i], f));
      lines := lines + Entry(i + 1, cheapest[i], f);
    }
    lines := lines + [""];
  }

  /** The loop over the sorted locations appending to result. */
  method BuildReport(rows: seq<Apartment>, locs: seq<string>, f: Format) returns (result: seq<string>)
    ensures result == ReportLines(rows, locs, f)
  {
    result := [Title];
    for j := 0 to |locs|
      invariant result == [Title] + Blocks(rows, locs, f, j)
    {
      var lines := AppendLocation(rows, locs[j], f);
      AppendAssoc([Title], Blocks(rows, locs, f, j), lines);
      result := result + lines;
    }
  }

  /** find_cheapest_apartments with the database, the formatters and the
      outcome of the file write as inputs. */
  method FindCheapestApartments(db: Db, f: Format, writable: bool) returns (analysis: Option<string>)
    ensures analysis == Analysis(db, f, writable)
  {
    if !db.reachable {
      return None;
    }
    var rows := Query(db.table);
    if rows == [] {
      return None;
    }
    var locations := Locations(rows);
    if locations.None? {
      return None;
    }
    var result := BuildReport(rows, locations.value, f);
    if !writable {
      return None;
    }
    analysis := Some(Join(result, "\n"));
  }

  // Properties

  /** The query keeps exactly the rows with an area of at most 40. */
  lemma QuerySpec(t: seq<Apartment>)
    ensures forall a :: a in Query(t) <==> a in t && a.area.Some? && a.area.value <= 40.0
  {
    forall a ensures a in Query(t) <==> a in t && SmallEnough(a) {
      FilterMember(t, SmallEnough, a);
    }
  }

  /** The locations are sorted and distinct, and are the named locations of
      the rows; they cannot be had when a NULL location meets a named one. */
  lemma LocationsSpec(rows: seq<Apartment>)
    ensures Locations(rows).None? <==> Mixed(rows)
    ensures Locations(rows).Some? ==>
      && StrictlyAscending(Locations(rows).value)
      && forall loc :: loc in Locations(rows).value <==> exists i :: 0 <= i < |rows| && rows[i].location == Some(loc)
  {
    if !Mixed(rows) {
      var names := FlatMap(rows, NameOf);
      var locs := SortUnique(names);
      forall loc ensures loc in locs <==> exists i :: 0 <= i < |rows| && rows[i].location == Some(loc) {
        assert loc in locs <==> loc in Elems(locs);
        assert loc in names <==> loc in Elems(names);
        FlatMapMember(rows, NameOf, loc);
      }
    }
  }

  /** Each location shows at most three apartments, all of them its own, and
      three whenever it has that many. */
  lemma Cheapest3Spec(rows: seq<Apartment>, loc: string)
    ensures |Cheapest3(rows, loc)| <= 3
    ensures forall a :: a in Cheapest3(rows, loc) ==> a.location == Some(loc) && a in rows
    ensures |Cheapest3(rows, loc)| == (if |Filter(rows, AtLocation(loc))| < 3 then |Filter(rows, AtLocation(loc))| else 3)
  {
    var p := AtLocation(loc);
    var r := Cheapest3(rows, loc);
    TopKSpec(rows, p, PriceKey, 3);
    forall a | a in r ensures a.location == Some(loc) && a in rows {
      assert a in multiset(r);
      assert a in multiset(Filter(rows, p));
      FilterMember(rows, p, a);
    }
  }

  /** The apartments shown for a location come in ascending price, those
      without a price last. */
  lemma Cheapest3Ordered(rows: seq<Apartment>, loc: string)
    ensures forall i, j :: 0 <= i < j < |Cheapest3(rows, loc)| && Cheapest3(rows, loc)[j].price.Some? ==>
      Cheapest3(rows, loc)[i].price.Some? && Cheapest3(rows, loc)[i].price.value <= Cheapest3(rows, loc)[j].price.value
  {
    TopKSpec(rows, AtLocation(loc), PriceKey, 3);
  }

  /** No apartment of the location that is left out is cheaper than one that
      is shown (the order among equal prices is not promised). */
  lemma Cheapest3Minimal(rows: seq<Apartment>, loc: string)
    ensures forall x, y ::
      (x in multiset(Filter(rows, AtLocation(loc))) - multiset(Cheapest3(rows, loc)) && y in Cheapest3(rows, loc) && x.price.Some?)
      ==> y.price.Some? && y.price.value <= x.price.value
  {
    var p := AtLocation(loc);
    var r := Cheapest3(rows, loc);
    TopKSpec(rows, p, PriceKey, 3);
    forall x, y | x in multiset(Filter(rows, p)) - multiset(r) && y in r && x.price.Some?
      ensures y.price.Some? && y.price.value <= x.price.value
    {
      assert KeyLe(PriceKey(y), PriceKey(x));
    }
  }

  /** A location that has a row shows a block unless its name is empty. */
  lemma LocationLinesEmpty(rows: seq<Apartment>, loc: string, f: Format)
    requires exists i :: 0 <= i < |rows| && rows[i].location == Some(loc)
    ensures LocationLines(rows, loc, f) == [] <==> loc == ""
  {
    var i :| 0 <= i < |rows| && rows[i].location == Some(loc);
    FilterMember(rows, AtLocation(loc), rows[i]);
    Cheapest3Spec(rows, loc);
    EntryWidth(f);
    BlockShape(loc, Cheapest3(rows, loc), EntryOf(f));
  }

  function NonBlank(loc: string): bool {
    loc != ""
  }

  function BlockOf(rows: seq<Apartment>, f: Format): string -> seq<string> {
    (loc: string) => Block(loc, Cheapest3(rows, loc), EntryOf(f))
  }

  /** The lines of one location that has a row: its block, or nothing for
      the empty name. */
  lemma LocationLinesShown(rows: seq<Apartment>, loc: string, f: Format)
    requires exists i :: 0 <= i < |rows| && rows[i].location == Some(loc)
    ensures LocationLines(rows, loc, f) == FlatMap(Filter([loc], NonBlank), BlockOf(rows, f))
  {
    LocationLinesEmpty(rows, loc, f);
    FilterSnoc([], loc, NonBlank);
    assert [] + [loc] == [loc];
    if loc != "" {
      FlatMapSingle(loc, BlockOf(rows, f));
    }
  }

  /** Over the locations of the rows, the report body is one block for each
      non-empty location name, in the order of the locations. */
  lemma {:induction false} BlocksShown(rows: seq<Apartment>, locs: seq<string>, f: Format, n: nat)
    requires n <= |locs|
    requires forall loc :: loc in locs ==> exists i :: 0 <= i < |rows| && rows[i].location == Some(loc)
    ensures Blocks(rows, locs, f, n) == FlatMap(Filter(locs[..n], NonBlank), BlockOf(rows, f))
  {
    if n > 0 {
      var loc := locs[n - 1];
      assert locs[..n] == locs[..n - 1] + [loc];
      BlocksShown(rows, locs, f, n - 1);
      LocationLinesShown(rows, loc, f);
      FilterAppend(locs[..n - 1], [loc], NonBlank);
      FlatMapAppend(Filter(locs[..n - 1], NonBlank), Filter([loc], NonBlank), BlockOf(rows, f));
    }
  }

  /** The locations shown are in ascending order, each at most once, and are
      exactly the non-empty location names of the rows. */
  lemma ShownSpec(rows: seq<Apartment>)
    requires Locations(rows).Some?
    ensures StrictlyAscending(Filter(Locations(rows).value, NonBlank))
    ensures forall loc :: loc in Filter(Locations(rows).value, NonBlank) <==>
      loc != "" && exists i :: 0 <= i < |rows| && rows[i].location == Some(loc)
  {
    var locs := Locations(rows).value;
    LocationsSpec(rows);
    FilterAscending(locs, NonBlank);
    forall loc ensures loc in Filter(locs, NonBlank) <==> loc in locs && NonBlank(loc) {
      FilterMember(locs, NonBlank, loc);
    }
  }

  /** The report lines: the title, then one block per shown location. */
  lemma ReportShape(rows: seq<Apartment>, f: Format)
    requires Locations(rows).Some?
    ensures ReportLines(rows, Locations(rows).value, f) ==
      [Title] + FlatMap(Filter(Locations(rows).value, NonBlank), BlockOf(rows, f))
  {
    var locs := Locations(rows).value;
    LocationsSpec(rows);
    assert locs[..|locs|] == locs;
    BlocksShown(rows, locs, f, |locs|);
  }

  /** A block: its location line and rule, seven lines per apartment, and a
      closing blank line. */
  lemma BlockShape(loc: string, top: seq<Apartment>, render: (nat, Apartment) -> seq<string>)
    requires SevenLines(render)
    ensures |Block(loc, top, render)| == 3 + 7 * |top|
    ensures Block(loc, top, render)[0] == "Локация: " + loc && Block(loc, top, render)[1] == Rule
    ensures Block(loc, top, render)[|Block(loc, top, render)| - 1] == ""
  {
    NumberedLayout(top, render, 7, |top|);
  }

  /** Apartment m + 1 of a block is lines 2 + 7m to 9 + 7m. */
  lemma BlockEntry(loc: string, top: seq<Apartment>, render: (nat, Apartment) -> seq<string>, m: nat)
    requires SevenLines(render)
    requires m < |top|
    ensures 9 + 7 * m <= |Block(loc, top, render)|
    ensures Block(loc, top, render)[2 + 7 * m..9 + 7 * m] == render(m + 1, top[m])
  {
    var e := Numbered(top, render, |top|);
    NumberedLayout(top, render, 7, |top|);
    assert e[7 * m..7 * m + 7] == render(m + 1, top[m]);
    InnerSlice(["Локация: " + loc, Rule], e, [""], 7 * m, 7 * m + 7);
  }

  /** An entry opens with its number and the title, and names the id and link. */
  lemma EntrySpec(i: nat, a: Apartment, f: Format)
    ensures NatToString(i) + ". " <= Entry(i, a, f)[0]
    ensures Entry(i, a, f)[1] == "   ID: " + IntToString(a.id)
    ensures Entry(i, a, f)[5] == "   Ссылка: " + a.url && Entry(i, a, f)[6] == ""
  {
  }

  /** A missing price, area or room count is shown as 0. */
  lemma MissingAsZero(i: nat, a: Apartment, f: Format)
    ensures a.price.None? ==> Entry(i, a, f) == Entry(i, a.(price := Some(0.0)), f)
    ensures a.area.None? ==> Entry(i, a, f) == Entry(i, a.(area := Some(0.0)), f)
    ensures a.rooms.None? ==> Entry(i, a, f) == Entry(i, a.(rooms := Some(0)), f)
  {
  }

  /** When there is an analysis, it starts with the title; there is none
      exactly when the database fails, no row qualifies, NULL and named
      locations mix, or the file cannot be written. */
  lemma AnalysisSpec(db: Db, f: Format, writable: bool)
    ensures Analysis(db, f, writable).None? <==>
      !db.reachable || Query(db.table) == [] || Mixed(Query(db.table)) || !writable
    ensures Analysis(db, f, writable).Some? ==> Title <= Analysis(db, f, writable).value
  {
    if db.reachable && Query(db.table) != [] {
      var rows := Query(db.table);
      LocationsSpec(rows);
      if Locations(rows).Some? && writable {
        JoinHead(ReportLines(rows, Locations(rows).value, f), "\n");
      }
    }
  }
}
