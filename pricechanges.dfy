/** find_price_change_apartments of price_changes_publisher.py: choose where the
    price changes come from (the window query over each listing's history, or
    synthetic changes over recent rows), keep the changes between 0.1% and 25%,
    and report the three largest per location. The database is a value: its
    rows, whether it answers, the columns the schema probe finds and
    whether the window query raises. Random draws and number formatting are parameters. */
module PriceChanges {
  import opened Text
  import opened Seq

  /** A stored row of bayut_properties; timestamps are abstract integers. */
  datatype Listing = Listing(id: int, title: string, price: Option<real>, rooms: Option<int>,
                             area: Option<real>, location: Option<string>, url: string,
                             updatedAt: Option<int>)

  /** current_updated_at and prev_updated_at of a window row. */
  datatype Dates = Dates(current: int, previous: int)

  /** A row of changes_df: the listing, prev_price, pct_change, absolute_change
      and, for window rows only, the two dates. */
  datatype Change = Change(listing: Listing, prev: real, pct: real, delta: real, dates: Option<Dates>)

  /** The table, whether connecting and the other queries succeed, the
      columns the information_schema probe returns, and whether the window
      query raises. The probe's answer is the table's schema: a required
      column it does not report is one the table lacks. */
  datatype Db = Db(table: seq<Listing>, reachable: bool, columns: set<string>, windowFails: bool)

  function PriceOf(r: Listing): real {
    if r.price.Some? then r.price.value else 0.0
  }

  function AtOf(r: Listing): int {
    if r.updatedAt.Some? then r.updatedAt.value else 0
  }

  predicate PricePositive(r: Listing) {
    r.price.Some? && r.price.value > 0.0
  }

  /** area > 0 AND area <= 40; a NULL area fails. */
  predicate Small(r: Listing) {
    r.area.Some? && 0.0 < r.area.value <= 40.0
  }

  function Abs(x: real): real {
    if x < 0.0 then -x else x
  }

  // The synthetic tier

  predicate Qualifies(r: Listing) {
    PricePositive(r) && Small(r)
  }

  predicate Undated(r: Listing) {
    r.updatedAt.None?
  }

  predicate Dated(r: Listing) {
    r.updatedAt.Some?
  }

  /** Later rows first. */
  function Recency(r: Listing): Key {
    Value(-(AtOf(r) as real))
  }

  /** The qualifying rows ORDER BY updated_at DESC, with PostgreSQL's NULLS
      FIRST for a descending order. */
  function Ranked(t: seq<Listing>): seq<Listing> {
    var q := Filter(t, Qualifies);
    Filter(q, Undated) + SortBy(Filter(q, Dated), Recency)
  }

  /** The fallback query: the first 1000 of those rows. */
  function Fallback(t: seq<Listing>): seq<Listing> {
    Take(Ranked(t), 1000)
  }

  /** pct_change from the draw, absolute_change = price * pct / 100 and
      prev_price = price - absolute_change. */
  function Synthesize(r: Listing, pct: real): Change {
    var delta := PriceOf(r) * pct / 100.0;
    Change(r, PriceOf(r) - delta, pct, delta, None)
  }

  /** One draw of np.random.uniform(-5, 8) per row. */
  function Synthetic(rows: seq<Listing>, draw: nat -> real): seq<Change> {
    seq(|rows|, i requires 0 <= i < |rows| => Synthesize(rows[i], draw(i)))
  }

  // The window tier

  /** The rows the window query partitions for id: price > 0 and a timestamp. */
  function Observed(id: int): Listing -> bool {
    (r: Listing) => r.id == id && PricePositive(r) && r.updatedAt.Some?
  }

  function Observations(t: seq<Listing>, id: int): seq<Listing> {
    Filter(t, Observed(id))
  }

  function When(r: Listing): Key {
    Value(AtOf(r) as real)
  }

  /** The partition ordered by updated_at. Both windows are taken to see
      this one order, also among equal timestamps. */
  function History(t: seq<Listing>, id: int): seq<Listing> {
    SortBy(Observations(t, id), When)
  }

  /** pct_change: the change from previous to current, in percent. */
  function PctChange(current: real, previous: real): real
    requires previous != 0.0
  {
    (current - previous) / previous * 100.0
  }

  /** The latest observation of an id against the one just before it. */
  datatype Delta = Delta(current: real, previous: real, pct: real, currentAt: int, previousAt: int)

  /** price_changes for one id: the row with rn = 1 and its LAG, kept when
      prev_price is not NULL; pct_change is NULL when prev_price is 0. */
  function PriceChange(t: seq<Listing>, id: int): Option<Delta> {
    var h := History(t, id);
    if |h| < 2 then None
    else
      var cur, prev := h[|h| - 1], h[|h| - 2];
      if PriceOf(prev) == 0.0 then None
      else Some(Delta(PriceOf(cur), PriceOf(prev), PctChange(PriceOf(cur), PriceOf(prev)),
                      AtOf(cur), AtOf(prev)))
  }

  /** The JOIN for one stored row bp: every row of an id with a change
      comes back, with its own price, when its area is small and the change
      is over 0.1%. */
  function JoinRow(t: seq<Listing>, bp: Listing): seq<Change> {
    match PriceChange(t, bp.id)
    case None => []
    case Some(d) =>
      if Abs(d.pct) > 0.1 && Small(bp)
      then [Change(bp, d.previous, d.pct, d.current - d.previous, Some(Dates(d.currentAt, d.previousAt)))]
      else []
  }

  /** The window query's result; its ORDER BY is the same key the analysis
      sorts by afterwards, so it is left to that sort. */
  function WindowRows(t: seq<Listing>): seq<Change> {
    FlatMap(t, (bp: Listing) => JoinRow(t, bp))
  }

  const Required: set<string> := {"updated_at", "id", "price"}

  /** changes_df once the required columns are there: the synthetic rows
      when the window query raises or returns nothing, the window rows
      otherwise. */
  function Changes(db: Db, draw: nat -> real): seq<Change> {
    var synthetic := Synthetic(Fallback(db.table), draw);
    if db.windowFails then synthetic
    else if WindowRows(db.table) == [] then synthetic
    else WindowRows(db.table)
  }

  // Filtering, ranking and the report

  /** 0.1 < |pct_change| <= 25. */
  predicate InBand(c: Change) {
    0.1 < Abs(c.pct) <= 25.0
  }

  /** sort_values('abs_pct_change', ascending=False). */
  function Magnitude(c: Change): Key {
    Value(-Abs(c.pct))
  }

  function NameOf(c: Change): seq<string> {
    if c.listing.location.Some? then [c.listing.location.value] else []
  }

  /** Some location is NULL while another is a string. */
  predicate Mixed(rows: seq<Change>) {
    (exists i :: 0 <= i < |rows| && rows[i].listing.location.None?)
    && (exists j :: 0 <= j < |rows| && rows[j].listing.location.Some?)
  }

  /** sorted(df['location'].unique()); Python cannot order None against a
      string, so a mixture raises and the analysis returns None. A lone NULL
      location is skipped by the loop, so it is left out here. */
  function Locations(rows: seq<Change>): Option<seq<string>> {
    if Mixed(rows) then None else Some(SortUnique(FlatMap(rows, NameOf)))
  }

  function AtLocation(loc: string): Change -> bool {
    (c: Change) => c.listing.location == Some(loc)
  }

  /** sorted_df[sorted_df['location'] == location].head(3). */
  function Top(kept: seq<Change>, loc: string): seq<Change> {
    TopK(kept, AtLocation(loc), Magnitude, 3)
  }

  /** The f-string formatters: f"{x:,.2f}", f"{x:.2f}" and the date rendering. */
  datatype Format = Format(money: real -> string, fixed: real -> string, date: int -> string)

  const Title: string := "Топ-3 объявления с самыми резкими изменениями цен на квартиры до 40 кв.м. по локациям:\n"

  const Rule: string := "------------------------------"

  function Glyph(pct: real): string {
    if pct > 0.0 then "📈" else "📉"
  }

  function Sign(pct: real): string {
    if pct > 0.0 then "+" else ""
  }

  function DateInfo(d: Option<Dates>, f: Format): string {
    match d
    case None => ""
    case Some(ds) =>
      "\n   Последнее обновление: " + f.date(ds.current) + "\n   Предыдущее обновление: " + f.date(ds.previous)
  }

  /** The nine lines of the i-th entry; a missing area or room count shows as 0. */
  function Entry(i: nat, c: Change, f: Format): seq<string> {
    var r := c.listing;
    [ NatToString(i) + ". " + r.title,
      "   ID: " + IntToString(r.id),
      "   Текущая цена: " + f.money(PriceOf(r)) + " AED",
      "   Предыдущая цена: " + f.money(c.prev) + " AED",
      "   Изменение: " + Glyph(c.pct) + " " + Sign(c.pct) + f.fixed(c.pct) + "%" + DateInfo(c.dates, f),
      "   Площадь: " + f.fixed(if r.area.Some? then r.area.value else 0.0) + " кв.м.",
      "   Спальни: " + IntToString(if r.rooms.Some? then r.rooms.value else 0),
      "   Ссылка: " + r.url,
      "" ]
  }

  function EntryOf(f: Format): (nat, Change) -> seq<string> {
    (i: nat, c: Change) => Entry(i, c, f)
  }

  lemma EntryWidth(f: Format)
    ensures forall i, c :: |EntryOf(f)(i, c)| == 9
  {
  }

  function Block(loc: string, top: seq<Change>, f: Format): seq<string> {
    ["Локация: " + loc, Rule] + Numbered(top, EntryOf(f), |top|) + [""]
  }

  /** The block of a location, or nothing for an empty name or no rows. */
  function LocationLines(kept: seq<Change>, loc: string, f: Format): seq<string> {
    if loc == "" || Top(kept, loc) == [] then [] else Block(loc, Top(kept, loc), f)
  }

  /** The blocks of the first n locations. */
  function Blocks(kept: seq<Change>, locs: seq<string>, f: Format, n: nat): seq<string>
    requires n <= |locs|
  {
    if n == 0 then [] else Blocks(kept, locs, f, n - 1) + LocationLines(kept, locs[n - 1], f)
  }

  function ReportLines(kept: seq<Change>, locs: seq<string>, f: Format): seq<string> {
    [Title] + Blocks(kept, locs, f, |locs|)
  }

  /** The whole analysis: None when the database fails, a required column
      is missing (the demonstration query names it, so it raises), there are
      no changes at all, the locations cannot be sorted or the report file
      cannot be written; the report joined by newlines otherwise. */
  function Analysis(db: Db, draw: nat -> real, f: Format, writable: bool): Option<string> {
    if !db.reachable || !(Required <= db.columns) then None
    else
      var changes := Changes(db, draw);
      if changes == [] then None
      else
        var kept := Filter(changes, InBand);
        match Locations(kept)
        case None => None
        case Some(locs) => if writable then Some(Join(ReportLines(kept, locs, f), "\n")) else None
  }

  /** The lines appended for one location, the inner loop over its rows. */
  method AppendLocation(kept: seq<Change>, location: string, f: Format) returns (lines: seq<string>)
    ensures lines == LocationLines(kept, location, f)
  {
    if location == "" {
      return [];
    }
    var top := Top(kept, location);
    if |top| == 0 {
      return [];
    }
    lines := ["Локация: " + location, Rule];
    for i := 0 to |top|
      invariant lines == ["Локация: " + location, Rule] + Numbered(top, EntryOf(f), i)
    {
      AppendAssoc(["Локация: " + location, Rule], Numbered(top, EntryOf(f), i), Entry(i + 1, top[i], f));
      lines := lines + Entry(i + 1, top[i], f);
    }
    lines := lines + [""];
  }

  /** The loop over the sorted locations appending to result. */
  method BuildReport(kept: seq<Change>, locs: seq<string>, f: Format) returns (result: seq<string>)
    ensures result == ReportLines(kept, locs, f)
  {
    result := [Title];
    for j := 0 to |locs|
      invariant result == [Title] + Blocks(kept, locs, f, j)
    {
      var lines := AppendLocation(kept, locs[j], f);
      AppendAssoc([Title], Blocks(kept, locs, f, j), lines);
      result := result + lines;
    }
  }

  /** find_price_change_apartments with the database, the draws, the
      formatters and whether the report file can be written as inputs. */
  method FindPriceChangeApartments(db: Db, draw: nat -> real, f: Format, writable: bool) returns (analysis: Option<string>)
    ensures analysis == Analysis(db, draw, f, writable)
  {
    if !db.reachable {
      return None;
    }
    if !(Required <= db.columns) {
      // the demonstration query selects the missing column and raises
      return None;
    }
    var changes := Changes(db, draw);
    if changes == [] {
      return None;
    }
    var kept := Filter(changes, InBand);
    var locations := Locations(kept);
    if locations.None? {
      return None;
    }
    var result := BuildReport(kept, locations.value, f);
    if !writable {
      return None;
    }
    analysis := Some(Join(result, "\n"));
  }

  /** The re-sampling branch for a frame without pct_change; every path
      above sets that column, so it is never taken. A draw in the closed
      dead band [-0.1, 0.1] is replaced by -neg or pos, as np.random.choice
      picks. */
  function Redraw(val: real, pickNegative: bool, neg: real, pos: real): real {
    if -0.1 <= val <= 0.1 then (if pickNegative then -neg else pos) else val
  }

  // Properties

  /** The fallback rows are the undated qualifying rows and then the dated
      ones, latest first; together the two parts are the qualifying rows. */
  lemma FallbackParts(t: seq<Listing>)
    ensures var q := Filter(t, Qualifies);
      && (forall x :: x in Filter(q, Undated) ==> Qualifies(x) && x in t)
      && (forall x :: x in SortBy(Filter(q, Dated), Recency) ==> Qualifies(x) && Dated(x) && x in t)
      && SortedBy(SortBy(Filter(q, Dated), Recency), Recency)
      && multiset(Filter(q, Undated) + SortBy(Filter(q, Dated), Recency)) == multiset(q)
  {
    var q := Filter(t, Qualifies);
    var d := Filter(q, Dated);
    forall x | x in Filter(q, Undated) ensures Qualifies(x) && x in t {
      FilterMember(q, Undated, x);
      FilterMember(t, Qualifies, x);
    }
    forall x | x in SortBy(d, Recency) ensures Qualifies(x) && Dated(x) && x in t {
      assert x in multiset(SortBy(d, Recency));
      assert x in d;
      FilterMember(q, Dated, x);
      FilterMember(t, Qualifies, x);
    }
    RankedCover(t);
  }

  lemma RankedCover(t: seq<Listing>)
    ensures var q := Filter(t, Qualifies);
      multiset(Filter(q, Undated) + SortBy(Filter(q, Dated), Recency)) == multiset(q)
  {
    var q := Filter(t, Qualifies);
    var u, d := Filter(q, Undated), Filter(q, Dated);
    FilterCover(q, Undated, Dated);
    assert multiset(u + SortBy(d, Recency)) == multiset(u) + multiset(d);
  }

  /** Undated rows followed by dated rows latest first: after a dated row
      come only dated rows, none later than it. */
  lemma NullsFirstPair(u: seq<Listing>, s: seq<Listing>, i: nat, j: nat)
    requires forall k :: 0 <= k < |u| ==> Undated(u[k])
    requires forall k :: 0 <= k < |s| ==> Dated(s[k])
    requires SortedBy(s, Recency)
    requires i < j < |u| + |s| && Dated((u + s)[i])
    ensures Dated((u + s)[j]) && AtOf((u + s)[j]) <= AtOf((u + s)[i])
  {
    assert i >= |u|;
    assert KeyLe(Recency(s[i - |u|]), Recency(s[j - |u|]));
  }

  /** One pair of ranked rows: after a dated row come only dated rows, none
      later than it. */
  lemma RankedAt(t: seq<Listing>, i: nat, j: nat)
    requires i < j < |Ranked(t)| && Dated(Ranked(t)[i])
    ensures Dated(Ranked(t)[j]) && AtOf(Ranked(t)[j]) <= AtOf(Ranked(t)[i])
  {
    var q := Filter(t, Qualifies);
    var u, d := Filter(q, Undated), Filter(q, Dated);
    var s := SortBy(d, Recency);
    forall k | 0 <= k < |s| ensures Dated(s[k]) {
      assert s[k] in multiset(d) by {
        assert s[k] in multiset(s);
      }
    }
    NullsFirstPair(u, s, i, j);
  }

  /** In the ranked rows the undated come first and the dated latest first. */
  lemma RankedOrder(t: seq<Listing>)
    ensures forall i, j :: 0 <= i < j < |Ranked(t)| && Dated(Ranked(t)[i]) ==>
      Dated(Ranked(t)[j]) && AtOf(Ranked(t)[j]) <= AtOf(Ranked(t)[i])
  {
    forall i, j | 0 <= i < j < |Ranked(t)| && Dated(Ranked(t)[i])
      ensures Dated(Ranked(t)[j]) && AtOf(Ranked(t)[j]) <= AtOf(Ranked(t)[i])
    {
      RankedAt(t, i, j);
    }
  }

  /** The fallback query returns min(1000, qualifying) qualifying rows of
      the table, and all of them when there are at most 1000. */
  lemma FallbackRows(t: seq<Listing>)
    ensures |Fallback(t)| == if |Filter(t, Qualifies)| < 1000 then |Filter(t, Qualifies)| else 1000
    ensures forall i :: 0 <= i < |Fallback(t)| ==> Qualifies(Fallback(t)[i]) && Fallback(t)[i] in t
    ensures multiset(Fallback(t)) <= multiset(Filter(t, Qualifies))
    ensures |Filter(t, Qualifies)| <= 1000 ==> multiset(Fallback(t)) == multiset(Filter(t, Qualifies))
  {
    var q := Filter(t, Qualifies);
    var r := Ranked(t);
    var f := Fallback(t);
    RankedCover(t);
    assert multiset(r) == multiset(q);
    assert |r| == |multiset(r)| == |multiset(q)| == |q|;
    TakeMultiset(r, 1000);
    forall i | 0 <= i < |f| ensures Qualifies(f[i]) && f[i] in t {
      assert f[i] == r[i] && r[i] in multiset(r);
      FilterMember(t, Qualifies, f[i]);
    }
  }

  /** Of rows where after a dated row come only dated rows, none later,
      nothing a prefix drops is later than a dated row it keeps. */
  lemma DroppedNotLater(r: seq<Listing>, k: nat)
    requires forall i, j :: 0 <= i < j < |r| && Dated(r[i]) ==> Dated(r[j]) && AtOf(r[j]) <= AtOf(r[i])
    ensures forall x, y :: x in multiset(r) - multiset(Take(r, k)) && y in Take(r, k) && Dated(y) ==>
      Dated(x) && AtOf(x) <= AtOf(y)
  {
    forall x, y | x in multiset(r) - multiset(Take(r, k)) && y in Take(r, k) && Dated(y)
      ensures Dated(x) && AtOf(x) <= AtOf(y)
    {
      var i, j := TakeDropped(r, k, x, y);
    }
  }

  /** When more than 1000 rows qualify, no row the fallback query leaves out
      is more recent than a dated row it keeps. */
  lemma FallbackRecent(t: seq<Listing>)
    ensures forall x, y :: x in multiset(Filter(t, Qualifies)) - multiset(Fallback(t)) && y in Fallback(t) && Dated(y) ==>
      Dated(x) && AtOf(x) <= AtOf(y)
  {
    RankedCover(t);
    RankedOrder(t);
    DroppedNotLater(Ranked(t), 1000);
  }

  /** The undated fallback rows come first and the others latest first. */
  lemma FallbackOrder(t: seq<Listing>)
    ensures forall i, j :: 0 <= i < j < |Fallback(t)| && Dated(Fallback(t)[i]) ==>
      Dated(Fallback(t)[j]) && AtOf(Fallback(t)[j]) <= AtOf(Fallback(t)[i])
  {
    RankedOrder(t);
    var r := Fallback(t);
    forall i, j | 0 <= i < j < |r| && Dated(r[i]) ensures Dated(r[j]) && AtOf(r[j]) <= AtOf(r[i]) {
      assert r[i] == Ranked(t)[i] && r[j] == Ranked(t)[j];
    }
  }

  /** Synthetic rows: prev_price + absolute_change is the price, absolute_change
      is pct% of it, and a positive price with a change in the band has a
      positive previous price. */
  lemma SyntheticSpec(rows: seq<Listing>, draw: nat -> real)
    ensures |Synthetic(rows, draw)| == |rows|
    ensures forall i :: 0 <= i < |rows| ==>
      var c := Synthetic(rows, draw)[i];
      && c.listing == rows[i] && c.pct == draw(i) && c.dates == None
      && c.delta * 100.0 == PriceOf(rows[i]) * c.pct
      && c.prev + c.delta == PriceOf(rows[i])
      && (PricePositive(rows[i]) && InBand(c) ==> c.prev > 0.0)
  {
    forall i | 0 <= i < |rows|
      ensures var c := Synthetic(rows, draw)[i];
        && c.listing == rows[i] && c.pct == draw(i) && c.dates == None
        && c.delta * 100.0 == PriceOf(rows[i]) * c.pct
        && c.prev + c.delta == PriceOf(rows[i])
        && (PricePositive(rows[i]) && InBand(c) ==> c.prev > 0.0)
    {
      var c := Synthetic(rows, draw)[i];
      var p := PriceOf(rows[i]);
      assert c == Synthesize(rows[i], draw(i));
      assert c.prev == p * (1.0 - c.pct / 100.0);
      if PricePositive(rows[i]) && InBand(c) {
        assert 1.0 - c.pct / 100.0 >= 0.75;
      }
    }
  }

  /** The tier selector once the columns are there: a raising or empty
      window query falls back to the synthetic rows, a non-empty one is
      used; the changes are empty exactly when the window query finds
      nothing and no row qualifies for the fallback. */
  lemma TierSpec(db: Db, draw: nat -> real)
    ensures db.windowFails ==> Changes(db, draw) == Synthetic(Fallback(db.table), draw)
    ensures !db.windowFails && WindowRows(db.table) != [] ==>
      Changes(db, draw) == WindowRows(db.table)
    ensures !db.windowFails && WindowRows(db.table) == [] ==>
      Changes(db, draw) == Synthetic(Fallback(db.table), draw)
    ensures Changes(db, draw) == [] <==>
      (db.windowFails || WindowRows(db.table) == []) && Filter(db.table, Qualifies) == []
  {
    SyntheticSpec(Fallback(db.table), draw);
    FallbackRows(db.table);
  }

  /** The window query finds a change for an id exactly when it has two
      observations: their prices are positive, so prev_price is never 0. */
  lemma PriceChangeExists(t: seq<Listing>, id: int)
    ensures PriceChange(t, id).Some? <==> |Observations(t, id)| >= 2
    ensures PriceChange(t, id).Some? ==>
      var d := PriceChange(t, id).value;
      d.previous > 0.0 && d.pct == PctChange(d.current, d.previous)
  {
    var obs := Observations(t, id);
    var h := History(t, id);
    SortByLength(obs, When);
    if |h| >= 2 {
      var prev := h[|h| - 2];
      assert prev in multiset(h);
      assert prev in obs by {
        assert prev in multiset(obs);
      }
      FilterMember(t, Observed(id), prev);
      assert PricePositive(prev);
      var cur := h[|h| - 1];
      var p, c := PriceOf(prev), PriceOf(cur);
      assert p > 0.0;
      assert PriceChange(t, id) == Some(Delta(c, p, PctChange(c, p), AtOf(cur), AtOf(prev)));
    }
  }

  /** A change compares the id's latest observation with one no later than
      it, and every other observation is no later than that one. */
  lemma PriceChangeLatest(t: seq<Listing>, id: int)
    requires PriceChange(t, id).Some?
    ensures var d := PriceChange(t, id).value;
      && d.previousAt <= d.currentAt
      && exists cur, prev ::
           && multiset{cur, prev} <= multiset(Observations(t, id))
           && d.current == PriceOf(cur) && d.currentAt == AtOf(cur)
           && d.previous == PriceOf(prev) && d.previousAt == AtOf(prev)
           && forall x :: x in multiset(Observations(t, id)) - multiset{cur, prev} ==> AtOf(x) <= d.previousAt
  {
    var obs := Observations(t, id);
    var h := History(t, id);
    var cur, prev := h[|h| - 1], h[|h| - 2];
    LastTwo(h, When);
    var d := PriceChange(t, id).value;
    assert d.previous == PriceOf(prev) && d.previousAt == AtOf(prev);
    assert d.current == PriceOf(cur) && d.currentAt == AtOf(cur);
    forall x | x in multiset(obs) - multiset{cur, prev} ensures AtOf(x) <= d.previousAt {
      assert KeyLe(When(x), When(prev));
    }
  }

  /** A window row is a stored small row of an id with a change over 0.1%,
      carrying that change; and every such stored row comes back, not just
      one per id. */
  lemma WindowRowsSpec(t: seq<Listing>)
    ensures forall c :: c in WindowRows(t) ==>
      && c.listing in t && Small(c.listing)
      && PriceChange(t, c.listing.id).Some?
      && c.pct == PriceChange(t, c.listing.id).value.pct && Abs(c.pct) > 0.1
      && c.prev == PriceChange(t, c.listing.id).value.previous
      && c.dates.Some?
    ensures forall i :: 0 <= i < |t| && Small(t[i]) && PriceChange(t, t[i].id).Some?
                        && Abs(PriceChange(t, t[i].id).value.pct) > 0.1 ==>
      exists c :: c in WindowRows(t) && c.listing == t[i]
  {
    var f := (bp: Listing) => JoinRow(t, bp);
    forall c | c in WindowRows(t)
      ensures && c.listing in t && Small(c.listing)
              && PriceChange(t, c.listing.id).Some?
              && c.pct == PriceChange(t, c.listing.id).value.pct && Abs(c.pct) > 0.1
              && c.prev == PriceChange(t, c.listing.id).value.previous
              && c.dates.Some?
    {
      FlatMapMember(t, f, c);
      var i :| 0 <= i < |t| && c in f(t[i]);
    }
    forall i | 0 <= i < |t| && Small(t[i]) && PriceChange(t, t[i].id).Some?
               && Abs(PriceChange(t, t[i].id).value.pct) > 0.1
      ensures exists c :: c in WindowRows(t) && c.listing == t[i]
    {
      var c := f(t[i])[0];
      FlatMapMember(t, f, c);
    }
  }

  /** Each location shows at most three of its rows, all of them its own,
      and three whenever it has that many. */
  lemma TopSpec(kept: seq<Change>, loc: string)
    ensures |Top(kept, loc)| <= 3
    ensures forall c :: c in Top(kept, loc) ==> c.listing.location == Some(loc) && c in kept
    ensures |Top(kept, loc)| == (if |Filter(kept, AtLocation(loc))| < 3 then |Filter(kept, AtLocation(loc))| else 3)
  {
    var p := AtLocation(loc);
    var r := Top(kept, loc);
    TopKSpec(kept, p, Magnitude, 3);
    forall c | c in r ensures c.listing.location == Some(loc) && c in kept {
      assert c in multiset(r);
      assert c in multiset(Filter(kept, p));
      FilterMember(kept, p, c);
    }
  }

  lemma MagnitudeLe(a: Change, b: Change)
    ensures KeyLe(Magnitude(a), Magnitude(b)) <==> Abs(b.pct) <= Abs(a.pct)
  {
  }

  /** The rows shown for a location come largest |pct| first. */
  lemma TopOrdered(kept: seq<Change>, loc: string)
    ensures forall i, j :: 0 <= i < j < |Top(kept, loc)| ==> Abs(Top(kept, loc)[j].pct) <= Abs(Top(kept, loc)[i].pct)
  {
    var r := Top(kept, loc);
    TopKSpec(kept, AtLocation(loc), Magnitude, 3);
    forall i, j | 0 <= i < j < |r| ensures Abs(r[j].pct) <= Abs(r[i].pct) {
      MagnitudeLe(r[i], r[j]);
    }
  }

  /** When a location has more than three rows, none left out moves more than
      any shown (the order among equal moves is not promised). */
  lemma TopMaximal(kept: seq<Change>, loc: string)
    ensures forall x, y :: x in multiset(Filter(kept, AtLocation(loc))) - multiset(Top(kept, loc)) && y in Top(kept, loc) ==>
      Abs(x.pct) <= Abs(y.pct)
  {
    var p := AtLocation(loc);
    var r := Top(kept, loc);
    TopKSpec(kept, p, Magnitude, 3);
    forall x, y | x in multiset(Filter(kept, p)) - multiset(r) && y in r ensures Abs(x.pct) <= Abs(y.pct) {
      MagnitudeLe(y, x);
    }
  }

  /** The locations are sorted and distinct, and are the named locations of
      the rows; they cannot be had when a NULL location meets a named one. */
  lemma LocationsSpec(rows: seq<Change>)
    ensures Locations(rows).None? <==> Mixed(rows)
    ensures Locations(rows).Some? ==>
      && StrictlyAscending(Locations(rows).value)
      && forall loc :: loc in Locations(rows).value <==> exists i :: 0 <= i < |rows| && rows[i].listing.location == Some(loc)
  {
    if !Mixed(rows) {
      var names := FlatMap(rows, NameOf);
      var locs := SortUnique(names);
      forall loc ensures loc in locs <==> exists i :: 0 <= i < |rows| && rows[i].listing.location == Some(loc) {
        assert loc in locs <==> loc in Elems(locs);
        assert loc in names <==> loc in Elems(names);
        FlatMapMember(rows, NameOf, loc);
      }
    }
  }

  /** The direction rule: 📈 and a plus sign exactly for a rise. */
  lemma DirectionSpec(pct: real)
    ensures Glyph(pct) == "📈" <==> pct > 0.0
    ensures Glyph(pct) == "📉" <==> pct <= 0.0
    ensures Sign(pct) == "+" <==> pct > 0.0
  {
    assert "📈" != "📉" by {
      assert "📈"[0] != "📉"[0];
    }
  }

  /** A location block: its header and rule, one nine-line entry per row
      numbered from 1, and a closing blank line. */
  lemma BlockShape(loc: string, top: seq<Change>, f: Format)
    ensures |Block(loc, top, f)| == 3 + 9 * |top|
    ensures Block(loc, top, f)[0] == "Локация: " + loc && Block(loc, top, f)[1] == Rule
    ensures Block(loc, top, f)[|Block(loc, top, f)| - 1] == ""
  {
    EntryWidth(f);
    NumberedLayout(top, EntryOf(f), 9, |top|);
  }

  /** Entry m + 1 of a block is lines 2 + 9m to 11 + 9m. */
  lemma BlockEntry(loc: string, top: seq<Change>, f: Format, m: nat)
    requires m < |top|
    ensures 11 + 9 * m <= |Block(loc, top, f)|
    ensures Block(loc, top, f)[2 + 9 * m..11 + 9 * m] == Entry(m + 1, top[m], f)
  {
    EntryWidth(f);
    var e := Numbered(top, EntryOf(f), |top|);
    NumberedLayout(top, EntryOf(f), 9, |top|);
    assert e[9 * m..9 * m + 9] == EntryOf(f)(m + 1, top[m]);
    InnerSlice(["Локация: " + loc, Rule], e, [""], 9 * m, 9 * m + 9);
  }

  /** An entry opens with its number and the title, and names the listing's
      id and link. */
  lemma EntrySpec(i: nat, c: Change, f: Format)
    ensures Entry(i, c, f)[0] == NatToString(i) + ". " + c.listing.title
    ensures Entry(i, c, f)[1] == "   ID: " + IntToString(c.listing.id)
    ensures Entry(i, c, f)[7] == "   Ссылка: " + c.listing.url
    ensures Entry(i, c, f)[8] == ""
  {
  }

  /** The redraw, if it ran, would have magnitude at least 0.1: it can land
      on the edge of the dead band, since uniform(0.1, ...) may return 0.1. */
  lemma RedrawSpec(val: real, pickNegative: bool, neg: real, pos: real)
    requires 0.1 <= neg && 0.1 <= pos
    ensures Abs(Redraw(val, pickNegative, neg, pos)) >= 0.1
    ensures !(-0.1 <= val <= 0.1) ==> Redraw(val, pickNegative, neg, pos) == val
  {
  }

  /** There is no analysis exactly when the database fails, a required
      column is missing, there are no changes, NULL and named locations mix
      among the rows in the band, or the file cannot be written; an analysis
      starts with the title. */
  lemma AnalysisSpec(db: Db, draw: nat -> real, f: Format, writable: bool)
    ensures Analysis(db, draw, f, writable).None? <==>
      || !db.reachable || !(Required <= db.columns) || Changes(db, draw) == []
      || Mixed(Filter(Changes(db, draw), InBand)) || !writable
    ensures Analysis(db, draw, f, writable).Some? ==> Title <= Analysis(db, draw, f, writable).value
  {
    var changes := Changes(db, draw);
    var kept := Filter(changes, InBand);
    LocationsSpec(kept);
    if db.reachable && Required <= db.columns && changes != [] && Locations(kept).Some? && writable {
      var lines := ReportLines(kept, Locations(kept).value, f);
      JoinHead(lines, "\n");
      assert lines[0] == Title;
    }
  }

  /** Every row a location can show is a change in the band. */
  lemma ShownInBand(changes: seq<Change>, loc: string, c: Change)
    requires c in Top(Filter(changes, InBand), loc)
    ensures InBand(c) && c in changes
  {
    TopSpec(Filter(changes, InBand), loc);
    FilterMember(changes, InBand, c);
  }
}
