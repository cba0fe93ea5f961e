/** format_apartments_report of find_cheapest_apartments_langchain.py: every
    apartment of the frame, grouped by location (groupby sorts its keys and
    drops NULL ones), cheapest first, appended line by line to one output
    string. Number formatting and the way pandas prints a room count are
    parameters. */
module GroupedReport {
  import opened Text
  import opened Seq
  import Cheapest

  type Apartment = Cheapest.Apartment

  const NotFound: string := "Не найдено квартир, соответствующих заданным критериям."

  /** The title line and a blank line. */
  const Header: string := Cheapest.Title + "\n"

  const Rule: string := Cheapest.Rule

  /** f"{float(x):,.2f}" and f"{row['rooms']}". */
  datatype Format = Format(money: real -> string, cell: Option<int> -> string)

  /** The keys of df.groupby('location'): the named locations, sorted and
      distinct. */
  function Groups(rows: seq<Apartment>): seq<string> {
    SortUnique(FlatMap(rows, Cheapest.NameOf))
  }

  /** group.sort_values('price'): all the rows of one location, cheapest
      first. */
  function Group(rows: seq<Apartment>, loc: string): seq<Apartment> {
    SortBy(Filter(rows, Cheapest.AtLocation(loc)), Cheapest.PriceKey)
  }

  /** float(row['price']) and float(row['area']) need values. */
  predicate Complete(a: Apartment) {
    a.price.Some? && a.area.Some?
  }

  /** The seven lines of the i-th apartment; price and area are present
      whenever the report is produced (see Report). */
  function Entry(i: nat, a: Apartment, f: Format): seq<string> {
    [ NatToString(i) + ". " + a.title,
      "   ID: " + IntToString(a.id),
      "   Цена: " + f.money(Cheapest.OrZero(a.price)) + " AED",
      "   Площадь: " + f.money(Cheapest.OrZero(a.area)) + " кв.м.",
      "   Спальни: " + f.cell(a.rooms),
      "   Ссылка: " + a.url,
      "" ]
  }

  function EntryOf(f: Format): (nat, Apartment) -> seq<string> {
    (i: nat, a: Apartment) => Entry(i, a, f)
  }

  lemma EntryWidth(f: Format)
    ensures Cheapest.SevenLines(EntryOf(f))
  {
  }

  function Line(s: string): string {
    s + "\n"
  }

  /** The lines, each followed by a newline. */
  function Unlines(lines: seq<string>): string {
    FlatMap(lines, Line)
  }

  /** The lines of one location: the same block layout as the three-cheapest
      report, over every row of the location. */
  function GroupLines(rows: seq<Apartment>, loc: string, f: Format): seq<string> {
    Cheapest.Block(loc, Group(rows, loc), EntryOf(f))
  }

  function GroupLinesOf(rows: seq<Apartment>, f: Format): string -> seq<string> {
    (loc: string) => GroupLines(rows, loc, f)
  }

  function Body(rows: seq<Apartment>, locs: seq<string>, f: Format): seq<string> {
    FlatMap(locs, GroupLinesOf(rows, f))
  }

  /** Some row of a named location lacks a price or an area, so float()
      raises while its group is printed. */
  predicate Raises(rows: seq<Apartment>) {
    exists i :: 0 <= i < |rows| && rows[i].location.Some? && !Complete(rows[i])
  }

  /** The report, or None when formatting raises. */
  function Report(rows: seq<Apartment>, f: Format): Option<string> {
    if rows == [] then Some(NotFound)
    else if Raises(rows) then None
    else Some(Header + Unlines(Body(rows, Groups(rows), f)))
  }

  lemma UnlinesAppend(prefix: string, a: seq<string>, b: seq<string>)
    ensures prefix + Unlines(a) + Unlines(b) == prefix + Unlines(a + b)
  {
    FlatMapAppend(a, b, Line);
    AppendAssoc(prefix, Unlines(a), Unlines(b));
  }

  lemma EntriesSnoc(output: string, out: string, group: seq<Apartment>, f: Format, i: nat)
    requires i < |group| && out == output + Unlines(Numbered(group, EntryOf(f), i))
    ensures out + Unlines(Entry(i + 1, group[i], f)) == output + Unlines(Numbered(group, EntryOf(f), i + 1))
  {
    var done := Numbered(group, EntryOf(f), i);
    FlatMapAppend(done, Entry(i + 1, group[i], f), Line);
    AppendAssoc(output, Unlines(done), Unlines(Entry(i + 1, group[i], f)));
  }

  lemma UnlinesSingle(x: string)
    ensures Unlines([x]) == x + "\n"
  {
    FlatMapSingle(x, Line);
  }

  /** One pass of the outer loop: the location line, the rule, every row of
      the location and a blank line, or None at the first row that cannot
      be printed. */
  method AppendGroup(output: string, rows: seq<Apartment>, location: string, f: Format) returns (extended: Option<string>)
    ensures extended.None? <==> exists a :: a in Group(rows, location) && !Complete(a)
    ensures extended.Some? ==> extended.value == output + Unlines(GroupLines(rows, location, f))
  {
    var group := Group(rows, location);
    var head := ["Локация: " + location, Rule];
    var out := output + ("Локация: " + location + "\n");
    out := out + (Rule + "\n");
    assert out == output + Unlines(head) by {
      UnlinesSingle("Локация: " + location);
      UnlinesSingle(Rule);
      UnlinesAppend(output, ["Локация: " + location], [Rule]);
      assert ["Локация: " + location] + [Rule] == head;
    }
    var body, complete := AppendEntries(out, group, f);
    if !complete {
      return None;
    }
    var entries := Numbered(group, EntryOf(f), |group|);
    UnlinesAppend(output, head, entries);
    UnlinesSingle("");
    UnlinesAppend(output, head + entries, [""]);
    out := body + "\n";
    return Some(out);
  }

  /** The inner loop over the rows of a group: each row's entry, or false at
      the first row that cannot be printed. */
  method AppendEntries(output: string, group: seq<Apartment>, f: Format) returns (out: string, complete: bool)
    ensures complete <==> forall a :: a in group ==> Complete(a)
    ensures complete ==> out == output + Unlines(Numbered(group, EntryOf(f), |group|))
  {
    out := output;
    assert Numbered(group, EntryOf(f), 0) == [];
    for i := 0 to |group|
      invariant out == output + Unlines(Numbered(group, EntryOf(f), i))
      invariant forall k :: 0 <= k < i ==> Complete(group[k])
    {
      var a := group[i];
      if !Complete(a) {
        return out, false;
      }
      assert forall k :: 0 <= k < i + 1 ==> Complete(group[k]);
      EntriesSnoc(output, out, group, f, i);
      out := out + Unlines(Entry(i + 1, a, f));
    }
    return out, true;
  }

  /** format_apartments_report, the loop over the groups. */
  method FormatApartmentsReport(rows: seq<Apartment>, f: Format) returns (report: Option<string>)
    ensures report == Report(rows, f)
  {
    if rows == [] {
      return Some(NotFound);
    }
    var groups := Groups(rows);
    var output := Header;
    for g := 0 to |groups|
      invariant output == Header + Unlines(Body(rows, groups[..g], f))
      invariant forall k, a :: 0 <= k < g && a in Group(rows, groups[k]) ==> Complete(a)
    {
      var location := groups[g];
      var extended := AppendGroup(output, rows, location, f);
      if extended.None? {
        var a :| a in Group(rows, location) && !Complete(a);
        GroupMember(rows, location, a);
        var i :| 0 <= i < |rows| && rows[i] == a;
        return None;
      }
      BodySnoc(rows, groups, g, f);
      UnlinesAppend(Header, Body(rows, groups[..g], f), GroupLines(rows, location, f));
      output := extended.value;
    }
    assert groups[..|groups|] == groups;
    NoneRaises(rows, groups);
    report := Some(output);
  }

  // Properties

  lemma BodySnoc(rows: seq<Apartment>, groups: seq<string>, g: nat, f: Format)
    requires g < |groups|
    ensures Body(rows, groups[..g + 1], f) == Body(rows, groups[..g], f) + GroupLines(rows, groups[g], f)
  {
    assert groups[..g + 1] == groups[..g] + [groups[g]];
    FlatMapAppend(groups[..g], [groups[g]], GroupLinesOf(rows, f));
    FlatMapSingle(groups[g], GroupLinesOf(rows, f));
  }

  /** A group holds exactly the rows of its location. */
  lemma GroupMember(rows: seq<Apartment>, loc: string, a: Apartment)
    ensures a in Group(rows, loc) <==> a in rows && a.location == Some(loc)
  {
    var p := Cheapest.AtLocation(loc);
    assert a in Group(rows, loc) <==> a in multiset(Group(rows, loc));
    assert a in Filter(rows, p) <==> a in multiset(Filter(rows, p));
    FilterMember(rows, p, a);
  }

  /** The groups are sorted and distinct, and are the named locations of the
      rows, the empty name included. */
  lemma GroupsSpec(rows: seq<Apartment>)
    ensures StrictlyAscending(Groups(rows))
    ensures forall loc :: loc in Groups(rows) <==> exists i :: 0 <= i < |rows| && rows[i].location == Some(loc)
  {
    var names := FlatMap(rows, Cheapest.NameOf);
    forall loc ensures loc in Groups(rows) <==> exists i :: 0 <= i < |rows| && rows[i].location == Some(loc) {
      assert loc in Groups(rows) <==> loc in Elems(Groups(rows));
      assert loc in names <==> loc in Elems(names);
      FlatMapMember(rows, Cheapest.NameOf, loc);
    }
  }

  /** When every group printed completely, no row raises. */
  lemma NoneRaises(rows: seq<Apartment>, groups: seq<string>)
    requires groups == Groups(rows)
    requires forall k, a :: 0 <= k < |groups| && a in Group(rows, groups[k]) ==> Complete(a)
    ensures !Raises(rows)
  {
    GroupsSpec(rows);
    forall i | 0 <= i < |rows| && rows[i].location.Some? ensures Complete(rows[i]) {
      var loc := rows[i].location.value;
      assert loc in groups;
      var k :| 0 <= k < |groups| && groups[k] == loc;
      GroupMember(rows, loc, rows[i]);
    }
  }

  /** No cap: a location lists all of its rows, in ascending price with the
      rows without a price last. */
  lemma GroupSpec(rows: seq<Apartment>, loc: string)
    ensures multiset(Group(rows, loc)) == multiset(Filter(rows, Cheapest.AtLocation(loc)))
    ensures |Group(rows, loc)| == |Filter(rows, Cheapest.AtLocation(loc))|
    ensures forall i, j :: 0 <= i < j < |Group(rows, loc)| && Group(rows, loc)[j].price.Some? ==>
      Group(rows, loc)[i].price.Some? && Group(rows, loc)[i].price.value <= Group(rows, loc)[j].price.value
  {
    SortByLength(Filter(rows, Cheapest.AtLocation(loc)), Cheapest.PriceKey);
  }

  /** The rows of a location are numbered from 1 in the order of its group. */
  lemma GroupEntry(rows: seq<Apartment>, loc: string, f: Format, m: nat)
    requires m < |Group(rows, loc)|
    ensures |GroupLines(rows, loc, f)| == 3 + 7 * |Group(rows, loc)|
    ensures GroupLines(rows, loc, f)[2 + 7 * m..9 + 7 * m] == Entry(m + 1, Group(rows, loc)[m], f)
  {
    EntryWidth(f);
    Cheapest.BlockShape(loc, Group(rows, loc), EntryOf(f));
    Cheapest.BlockEntry(loc, Group(rows, loc), EntryOf(f), m);
  }

  /** The empty frame gives the fixed message; otherwise the report starts
      with the header, and there is none exactly when a row of a named
      location lacks a price or an area. */
  lemma ReportSpec(rows: seq<Apartment>, f: Format)
    ensures rows == [] ==> Report(rows, f) == Some(NotFound)
    ensures rows != [] ==> (Report(rows, f).None? <==> Raises(rows))
    ensures rows != [] && Report(rows, f).Some? ==> Header <= Report(rows, f).value
  {
  }
}

/** extract_neighborhood of find_cheapest_apartments_langchain.py: the
    district name of a location given as JSON text. json.loads and the
    regular-expression searches are parameters. */
module Neighbourhood {
  import opened Text
  import opened Seq

  /** An element of the parsed location list: its 'type', 'level' and
      'name' entries, None when absent. */
  datatype Item = Item(kind: Option<string>, level: Option<int>, name: Option<string>)

  /** What json.loads yields: the list, or Invalid when it raises
      JSONDecodeError or the value cannot be iterated (TypeError). */
  datatype Parsed = Items(items: seq<Item>) | Invalid

  /** The four fallback patterns, in the order they are tried. */
  datatype Pattern = NeighbourhoodType | LevelTwo | LevelOne | AnyName

  function Rank(p: Pattern): nat {
    match p
    case NeighbourhoodType => 0
    case LevelTwo => 1
    case LevelOne => 2
    case AnyName => 3
  }

  /** Single quotes become double quotes, and only when there is one. */
  function FixQuotes(s: string): string {
    if '\'' in s then ReplaceChar(s, '\'', "\"") else s
  }

  predicate IsNeighbourhood(x: Item) {
    x.kind == Some("neighbourhood")
  }

  function LevelIs(n: int): Item -> bool {
    (x: Item) => x.level == Some(n)
  }

  /** The search over the parsed list: the first neighbourhood, else the
      first level 2, else the first level 1, else the first item; its name. */
  function Pick(xs: seq<Item>): Option<string> {
    match First(xs, IsNeighbourhood)
    case Some(i) => xs[i].name
    case None =>
      match First(xs, LevelIs(2))
      case Some(i) => xs[i].name
      case None =>
        match First(xs, LevelIs(1))
        case Some(i) => xs[i].name
        case None => if |xs| > 0 then xs[0].name else None
  }

  /** The regular-expression fallback: the first pattern that matches. */
  function Fallback(s: string, search: (Pattern, string) -> Option<string>): Option<string> {
    if search(NeighbourhoodType, s).Some? then search(NeighbourhoodType, s)
    else if search(LevelTwo, s).Some? then search(LevelTwo, s)
    else if search(LevelOne, s).Some? then search(LevelOne, s)
    else search(AnyName, s)
  }

  /** extract_neighborhood. A missing value (None) makes both json.loads and
      re.search raise, and the result is None. */
  function ExtractNeighborhood(json: Option<string>, parse: string -> Parsed,
                               search: (Pattern, string) -> Option<string>): Option<string> {
    match json
    case None => None
    case Some(s) =>
      var t := FixQuotes(s);
      match parse(t)
      case Items(xs) => Pick(xs)
      case Invalid => Fallback(t, search)
  }

  // Properties

  /** The quote fix turns each single quote into a double quote and changes
      nothing else. */
  lemma FixQuotesSpec(s: string)
    ensures |FixQuotes(s)| == |s|
    ensures forall i :: 0 <= i < |s| ==> FixQuotes(s)[i] == if s[i] == '\'' then '"' else s[i]
    ensures '\'' !in FixQuotes(s)
  {
    if '\'' in s {
      Swapped(s);
    }
  }

  lemma {:induction false} Swapped(s: string)
    ensures |ReplaceChar(s, '\'', "\"")| == |s|
    ensures forall i :: 0 <= i < |s| ==> ReplaceChar(s, '\'', "\"")[i] == if s[i] == '\'' then '"' else s[i]
    decreases |s|
  {
    if s != [] {
      Swapped(s[1..]);
      var r := ReplaceChar(s, '\'', "\"");
      var head := if s[0] == '\'' then "\"" else [s[0]];
      assert r == head + ReplaceChar(s[1..], '\'', "\"");
      forall i | 0 <= i < |s| ensures r[i] == if s[i] == '\'' then '"' else s[i] {
        if i > 0 {
          assert r[i] == ReplaceChar(s[1..], '\'', "\"")[i - 1];
          assert s[i] == s[1..][i - 1];
        }
      }
    }
  }

  /** The priority search over the parsed list. */
  lemma PickSpec(xs: seq<Item>)
    ensures forall i :: 0 <= i < |xs| && IsNeighbourhood(xs[i]) && (forall j :: 0 <= j < i ==> !IsNeighbourhood(xs[j])) ==>
      Pick(xs) == xs[i].name
    ensures (forall j :: 0 <= j < |xs| ==> !IsNeighbourhood(xs[j])) ==>
      forall i :: 0 <= i < |xs| && xs[i].level == Some(2) && (forall j :: 0 <= j < i ==> xs[j].level != Some(2)) ==>
        Pick(xs) == xs[i].name
    ensures (forall j :: 0 <= j < |xs| ==> !IsNeighbourhood(xs[j]) && xs[j].level != Some(2)) ==>
      forall i :: 0 <= i < |xs| && xs[i].level == Some(1) && (forall j :: 0 <= j < i ==> xs[j].level != Some(1)) ==>
        Pick(xs) == xs[i].name
    ensures (forall j :: 0 <= j < |xs| ==> !IsNeighbourhood(xs[j]) && xs[j].level != Some(2) && xs[j].level != Some(1)) ==>
      Pick(xs) == if |xs| > 0 then xs[0].name else None
  {
    var a, b, c := First(xs, IsNeighbourhood), First(xs, LevelIs(2)), First(xs, LevelIs(1));
    if a.None? {
      assert forall j :: 0 <= j < |xs| ==> !IsNeighbourhood(xs[j]);
    }
  }

  /** The fallback answers with the first pattern that matches; it has no
      answer only when none does. */
  lemma FallbackSpec(s: string, search: (Pattern, string) -> Option<string>)
    ensures Fallback(s, search).None? <==> forall p :: search(p, s).None?
    ensures Fallback(s, search).Some? ==>
      exists p :: search(p, s) == Fallback(s, search) && forall q :: Rank(q) < Rank(p) ==> search(q, s).None?
  {
    if Fallback(s, search).Some? {
      var p := if search(NeighbourhoodType, s).Some? then NeighbourhoodType
        else if search(LevelTwo, s).Some? then LevelTwo
        else if search(LevelOne, s).Some? then LevelOne
        else AnyName;
      assert search(p, s) == Fallback(s, search);
    } else {
      forall p ensures search(p, s).None? {
        match p
        case NeighbourhoodType =>
        case LevelTwo =>
        case LevelOne =>
        case AnyName =>
      }
    }
  }

  /** Without a value there is no name; text without single quotes reaches
      the parser unchanged; a parsed list without items gives no name. */
  lemma ExtractSpec(json: Option<string>, parse: string -> Parsed, search: (Pattern, string) -> Option<string>)
    ensures json.None? ==> ExtractNeighborhood(json, parse, search).None?
    ensures json.Some? && '\'' !in json.value && parse(json.value).Items? ==>
      ExtractNeighborhood(json, parse, search) == Pick(parse(json.value).items)
    ensures json.Some? && parse(FixQuotes(json.value)) == Items([]) ==> ExtractNeighborhood(json, parse, search).None?
  {
  }
}
