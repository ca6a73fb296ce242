/** The tariff sheet parser: a row-by-row state machine that turns a grid of cells into weight
    slabs and a country-to-zone list. A carrier's regular expressions are predicates of its
    configuration, so every result below holds for every carrier. */
module TariffSheet {
  import opened Text
  import opened SheetWeights

  datatype ShipmentType = Document | Package

  type Row = seq<string>

  datatype SectionRule = SectionRule(matches: string -> bool, shipmentType: ShipmentType)

  datatype Config = Config(
    sections: seq<SectionRule>,
    rateHeader: string -> bool,
    weightColumn: nat,
    countryHeader: string -> bool,
    zoneName: string -> Option<string>,
    /** JavaScript's `Number` on a rate cell, when the result is finite. */
    number: string -> Option<real>)

  datatype Slab = Slab(from: real, to: real, rateType: RateType, shipmentType: ShipmentType, rates: map<string, real>)

  datatype ZoneColumn = ZoneColumn(zone: string, index: nat)

  datatype CountryPair = CountryPair(country: nat, zone: nat)

  datatype Listing = Listing(country: string, zone: string)

  /** The variables the row loop carries. */
  datatype State = State(
    zoneColumns: seq<ZoneColumn>,
    countryPairs: seq<CountryPair>,
    section: Option<ShipmentType>,
    previousTo: real,
    slabs: seq<Slab>,
    listings: seq<Listing>,
    ignored: nat)

  const INITIAL := State([], [], None, 0.0, [], [], 0)

  // ---------------------------------------------------------------------------------------------
  // One row
  // ---------------------------------------------------------------------------------------------

  function RawCell(row: Row, index: nat): string {
    if index < |row| then row[index] else ""
  }

  function Cell(row: Row, index: nat): string {
    Trim(RawCell(row, index))
  }

  function WithoutCommas(s: string): string {
    if s == "" then "" else (if s[0] == ',' then "" else s[..1]) + WithoutCommas(s[1..])
  }

  /** The first `n` cells' zone columns, left to right. */
  function ZoneHeader(config: Config, row: Row, n: nat): seq<ZoneColumn>
    requires n <= |row|
  {
    if n == 0 then []
    else
      var zone := config.zoneName(Cell(row, n - 1));
      ZoneHeader(config, row, n - 1) +
      (if zone.Some? && zone.value != "" then [ZoneColumn(zone.value, n - 1)] else [])
  }

  predicate IsZoneCell(row: Row, index: nat) {
    Lower(Cell(row, index)) == "zone"
  }

  predicate IsCountryCell(config: Config, row: Row, index: nat) {
    Cell(row, index) != "" && config.countryHeader(Cell(row, index))
  }

  /** The first "Zone" cell at or after `index`. */
  function ZoneCellFrom(row: Row, index: nat): Option<nat>
    decreases |row| - index
  {
    if index >= |row| then None
    else if IsZoneCell(row, index) then Some(index)
    else ZoneCellFrom(row, index + 1)
  }

  /** The country/zone column pairs headed by the first `n` cells. */
  function CountryPairs(config: Config, row: Row, n: nat): seq<CountryPair>
    requires n <= |row|
  {
    if n == 0 then []
    else
      var zone := ZoneCellFrom(row, n);
      CountryPairs(config, row, n - 1) +
      (if IsCountryCell(config, row, n - 1) && zone.Some? then [CountryPair(n - 1, zone.value)] else [])
  }

  /** The listings a row carries under the first `n` column pairs. */
  function Listings(row: Row, pairs: seq<CountryPair>, n: nat): (found: seq<Listing>)
    requires n <= |pairs|
    ensures n == 0 ==> found == []
  {
    if n == 0 then []
    else
      var listing := Listing(Cell(row, pairs[n - 1].country), Cell(row, pairs[n - 1].zone));
      Listings(row, pairs, n - 1) +
      (if listing.country != "" && listing.zone != "" then [listing] else [])
  }

  /** The positive number in a cell, if it holds one. */
  function RateIn(config: Config, row: Row, index: nat): Option<real> {
    var value := config.number(WithoutCommas(RawCell(row, index)));
    if value.Some? && value.value > 0.0 then value else None
  }

  /** The positive rates a row carries under the first `n` zone columns. */
  function Rates(config: Config, row: Row, columns: seq<ZoneColumn>, n: nat): map<string, real>
    requires n <= |columns|
  {
    if n == 0 then map[]
    else
      var rest := Rates(config, row, columns, n - 1);
      var value := RateIn(config, row, columns[n - 1].index);
      if value.Some? then rest[columns[n - 1].zone := value.value] else rest
  }

  /** The first rule a section marker matches. */
  function SectionHit(rules: seq<SectionRule>, text: string): Option<ShipmentType> {
    if rules == [] then None
    else if rules[0].matches(text) then Some(rules[0].shipmentType)
    else SectionHit(rules[1..], text)
  }

  /** What the loop makes of a row, in the order the loop tries. */
  datatype RowKind =
    | Blank
    | ZoneHeaderRow(columns: seq<ZoneColumn>)
    | CountryHeaderRow(pairs: seq<CountryPair>)
    | CountryRow(found: seq<Listing>)
    | SectionRow(shipmentType: ShipmentType)
    | Unread
    | Note
    | Priced(slab: Slab)

  function ClassifyWeight(config: Config, st: State, row: Row): RowKind {
    var raw := Cell(row, config.weightColumn);
    if raw == "" || st.section.None? || st.zoneColumns == [] then Unread
    else
      var weight := ParseWeight(raw, st.previousTo);
      var rates := Rates(config, row, st.zoneColumns, |st.zoneColumns|);
      if weight.None? || rates == map[] then Note
      else Priced(Slab(weight.value.from, weight.value.to, weight.value.rateType, st.section.value, rates))
  }

  function Classify(config: Config, st: State, row: Row): RowKind {
    if forall c | c in row :: c == "" then Blank
    else if (exists i | 0 <= i < |row| :: config.rateHeader(Cell(row, i))) && ZoneHeader(config, row, |row|) != [] then
      ZoneHeaderRow(ZoneHeader(config, row, |row|))
    else if exists i | 0 <= i < |row| :: IsCountryCell(config, row, i) then
      CountryHeaderRow(CountryPairs(config, row, |row|))
    else
      var found := Listings(row, st.countryPairs, |st.countryPairs|);
      var hit := SectionHit(config.sections, Cell(row, 0));
      if found != [] then CountryRow(found)
      else if hit.Some? then SectionRow(hit.value)
      else ClassifyWeight(config, st, row)
  }

  function Apply(st: State, kind: RowKind): State {
    match kind
    case Blank => st
    case ZoneHeaderRow(columns) => st.(zoneColumns := columns)
    case CountryHeaderRow(pairs) => st.(countryPairs := pairs)
    case CountryRow(found) => st.(listings := st.listings + found)
    case SectionRow(t) => st.(section := Some(t), previousTo := 0.0)
    case Unread => st
    case Note => st.(ignored := st.ignored + 1)
    case Priced(slab) => st.(slabs := st.slabs + [slab], previousTo := slab.to)
  }

  function Step(config: Config, st: State, row: Row): State {
    Apply(st, Classify(config, st, row))
  }

  function Run(config: Config, st: State, rows: seq<Row>): State {
    if rows == [] then st else Step(config, Run(config, st, rows[..|rows| - 1]), rows[|rows| - 1])
  }

  // ---------------------------------------------------------------------------------------------
  // The parser itself
  // ---------------------------------------------------------------------------------------------

  /** The variables of the row loop, updated in place by one row at a time. */
  class CarrierParser {
    const config: Config
    var zoneColumns: seq<ZoneColumn>
    var countryPairs: seq<CountryPair>
    var section: Option<ShipmentType>
    var previousTo: real
    var slabs: seq<Slab>
    var listings: seq<Listing>
    var ignoredRows: nat

    ghost function Now(): State
      reads this
    {
      State(zoneColumns, countryPairs, section, previousTo, slabs, listings, ignoredRows)
    }

    constructor (config: Config)
      ensures this.config == config && Now() == INITIAL
    {
      this.config := config;
      zoneColumns, countryPairs, section, previousTo := [], [], None, 0.0;
      slabs, listings, ignoredRows := [], [], 0;
    }

    method ReadZoneHeader(row: Row) returns (adopted: bool)
      modifies this`zoneColumns
      ensures adopted == (ZoneHeader(config, row, |row|) != [])
      ensures zoneColumns == if adopted then ZoneHeader(config, row, |row|) else old(zoneColumns)
    {
      var found: seq<ZoneColumn> := [];
      for index := 0 to |row|
        invariant found == ZoneHeader(config, row, index)
        invariant unchanged(this)
      {
        var zone := config.zoneName(Trim(row[index]));
        if zone.Some? && zone.value != "" {
          found := found + [ZoneColumn(zone.value, index)];
        }
      }
      if found == [] {
        return false;
      }
      zoneColumns := found;
      adopted := true;
    }

    method ReadCountryHeader(row: Row)
      modifies this`countryPairs
      ensures countryPairs == CountryPairs(config, row, |row|)
    {
      hide IsCountryCell, ZoneCellFrom;
      countryPairs := [];
      for j := 0 to |row|
        invariant countryPairs == CountryPairs(config, row, j)
      {
        if IsCountryCell(config, row, j) {
          var zone := ZoneCellFrom(row, j + 1);
          if zone.Some? {
            countryPairs := countryPairs + [CountryPair(j, zone.value)];
          }
        }
      }
    }

    method ReadListings(row: Row) returns (matched: bool)
      modifies this`listings
      ensures listings == old(listings) + Listings(row, countryPairs, |countryPairs|)
      ensures matched == (Listings(row, countryPairs, |countryPairs|) != [])
      ensures !matched ==> listings == old(listings)
    {
      hide Cell;
      matched := false;
      for k := 0 to |countryPairs|
        invariant listings == old(listings) + Listings(row, countryPairs, k)
        invariant matched == (Listings(row, countryPairs, k) != [])
      {
        var country, zone := Cell(row, countryPairs[k].country), Cell(row, countryPairs[k].zone);
        if country != "" && zone != "" {
          listings := listings + [Listing(country, zone)];
          matched := true;
        }
      }
    }

    method ReadRates(row: Row) returns (rates: map<string, real>)
      ensures rates == Rates(config, row, zoneColumns, |zoneColumns|)
    {
      rates := map[];
      for k := 0 to |zoneColumns|
        invariant rates == Rates(config, row, zoneColumns, k)
      {
        var value := config.number(WithoutCommas(RawCell(row, zoneColumns[k].index)));
        if value.Some? && value.value > 0.0 {
          rates := rates[zoneColumns[k].zone := value.value];
        }
      }
    }

    /** One iteration of the row loop. */
    method ReadRow(row: Row)
      modifies this
      ensures Now() == Step(config, old(Now()), row)
    {
      hide Cell, IsCountryCell, ZoneHeader, CountryPairs, Listings, SectionHit, ClassifyWeight;
      if forall c | c in row :: c == "" {
        return;
      }
      if exists c | 0 <= c < |row| :: config.rateHeader(Cell(row, c)) {
        var adopted := ReadZoneHeader(row);
        if adopted {
          return;
        }
      }
      if exists c | 0 <= c < |row| :: IsCountryCell(config, row, c) {
        ReadCountryHeader(row);
        return;
      }
      if countryPairs != [] {
        var matched := ReadListings(row);
        if matched {
          return;
        }
      }
      var sectionHit := SectionHit(config.sections, Cell(row, 0));
      if sectionHit.Some? {
        section := sectionHit;
        previousTo := 0.0;
        return;
      }
      ReadWeightRow(row);
    }

    /** The tail of the iteration: a row that is neither a header, a listing nor a marker. */
    method ReadWeightRow(row: Row)
      modifies this`slabs, this`previousTo, this`ignoredRows
      ensures Now() == Apply(old(Now()), ClassifyWeight(config, old(Now()), row))
    {
      hide Cell, ParseWeight, Rates;
      var raw := Cell(row, config.weightColumn);
      if raw == "" || section.None? || zoneColumns == [] {
        return;
      }
      var weight := ParseWeight(raw, previousTo);
      if weight.None? {
        ignoredRows := ignoredRows + 1;
        return;
      }
      var rates := ReadRates(row);
      if rates == map[] {
        ignoredRows := ignoredRows + 1;
        return;
      }
      slabs := slabs + [Slab(weight.value.from, weight.value.to, weight.value.rateType, section.value, rates)];
      previousTo := weight.value.to;
    }
  }

  method ParseCarrier(config: Config, rows: seq<Row>)
    returns (slabs: seq<Slab>, listings: seq<Listing>, ignoredRows: nat)
    ensures slabs == Run(config, INITIAL, rows).slabs
    ensures listings == Run(config, INITIAL, rows).listings
    ensures ignoredRows == Run(config, INITIAL, rows).ignored
  {
    var parser := new CarrierParser(config);
    for i := 0 to |rows|
      invariant parser.config == config
      invariant parser.Now() == Run(config, INITIAL, rows[..i])
    {
      assert rows[..i + 1][..i] == rows[..i];
      parser.ReadRow(rows[i]);
    }
    assert rows[..|rows|] == rows;
    slabs, listings, ignoredRows := parser.slabs, parser.listings, parser.ignoredRows;
  }

  // ---------------------------------------------------------------------------------------------
  // What the rows contribute
  // ---------------------------------------------------------------------------------------------

  lemma CellText(row: Row, index: nat)
    ensures Cell(row, index) == Trim(if index < |row| then row[index] else "")
  {
  }

  /** The zone columns of a header row are its cells that name a zone, each at its own index, in order. */
  lemma {:induction false} ZoneHeaderExactly(config: Config, row: Row, n: nat, zone: string, index: nat)
    requires n <= |row|
    ensures ZoneColumn(zone, index) in ZoneHeader(config, row, n) <==>
            index < n && zone != "" && config.zoneName(Trim(row[index])) == Some(zone)
    ensures forall i, j | 0 <= i < j < |ZoneHeader(config, row, n)| ::
              ZoneHeader(config, row, n)[i].index < ZoneHeader(config, row, n)[j].index
    ensures forall column | column in ZoneHeader(config, row, n) :: column.index < n
  {
    hide Trim;
    if n > 0 {
      ZoneHeaderExactly(config, row, n - 1, zone, index);
    }
  }

  /** The column pairs come in the order of their country cells. */
  lemma {:induction false} CountryPairsRise(config: Config, row: Row, n: nat)
    requires n <= |row|
    ensures forall i, j | 0 <= i < j < |CountryPairs(config, row, n)| ::
              CountryPairs(config, row, n)[i].country < CountryPairs(config, row, n)[j].country
    ensures forall pair | pair in CountryPairs(config, row, n) :: pair.country < n
  {
    hide IsCountryCell, ZoneCellFrom;
    if n > 0 {
      CountryPairsRise(config, row, n - 1);
    }
  }

  /** A rate is the positive number its cell denotes without its commas; a cell past the row's end is
      blank. */
  lemma RateInExactly(config: Config, row: Row, index: nat, rate: real)
    ensures RateIn(config, row, index) == Some(rate) <==>
            rate > 0.0 && config.number(WithoutCommas(if index < |row| then row[index] else "")) == Some(rate)
  {
    hide WithoutCommas;
  }

  /** Commas, and nothing but commas, are taken out. */
  lemma {:induction false} CommasGo(a: string, b: string)
    ensures WithoutCommas(a + "," + b) == WithoutCommas(a) + WithoutCommas(b)
    ensures ',' !in a ==> WithoutCommas(a) == a
  {
    hide WithoutCommas;
    if a == "" {
      assert a + "," + b == "," + b && ("," + b)[1..] == b;
      CommasStep("," + b);
      NoCommas();
    } else {
      var tail := a[1..];
      assert a == [a[0]] + tail && (a + "," + b)[1..] == tail + "," + b;
      CommasGo(tail, b);
      CommasStep(a);
      CommasStep(a + "," + b);
    }
  }

  lemma NoCommas()
    ensures WithoutCommas("") == ""
  {
  }

  lemma CommasStep(s: string)
    requires s != ""
    ensures WithoutCommas(s) == (if s[0] == ',' then "" else [s[0]]) + WithoutCommas(s[1..])
  {
  }

  /** A marker opens a section of the type the first rule that matches it names. */
  lemma {:induction false} FirstRuleDecides(rules: seq<SectionRule>, text: string, shipmentType: ShipmentType)
    ensures SectionHit(rules, text) == Some(shipmentType) <==>
            exists k | 0 <= k < |rules| ::
              && rules[k].matches(text) && rules[k].shipmentType == shipmentType
              && forall j | 0 <= j < k :: !rules[j].matches(text)
    ensures SectionHit(rules, text).None? <==> forall k | 0 <= k < |rules| :: !rules[k].matches(text)
  {
    if rules != [] {
      var tail := rules[1..];
      FirstRuleDecides(tail, text, shipmentType);
      assert forall k | 0 <= k < |tail| :: tail[k] == rules[k + 1];
      if rules[0].matches(text) {
        assert SectionHit(rules, text) == Some(rules[0].shipmentType);
      } else if k :| 0 <= k < |tail| && tail[k].matches(text) && tail[k].shipmentType == shipmentType &&
                     forall j | 0 <= j < k :: !tail[j].matches(text) {
        LaterRuleDecides(rules, text, k);
      }
    }
    hide SectionHit;
  }

  lemma LaterRuleDecides(rules: seq<SectionRule>, text: string, k: nat)
    requires rules != [] && k < |rules| - 1 && !rules[0].matches(text) && rules[1..][k].matches(text)
    requires forall j | 0 <= j < k :: !rules[1..][j].matches(text)
    ensures rules[k + 1].matches(text) && forall j | 0 <= j < k + 1 :: !rules[j].matches(text)
  {
    forall j | 0 <= j < k + 1
      ensures !rules[j].matches(text)
    {
      if j > 0 {
        assert rules[1..][j - 1] == rules[j];
      }
    }
  }

  /** A zone is given a rate exactly when one of its columns carries a positive number on the row; the
      last such column decides. */
  lemma {:induction false} RatesExactly(config: Config, row: Row, columns: seq<ZoneColumn>, n: nat, zone: string,
                                        rate: real)
    requires n <= |columns|
    ensures zone in Rates(config, row, columns, n) && Rates(config, row, columns, n)[zone] == rate <==>
            exists k | 0 <= k < n ::
              && columns[k].zone == zone && RateIn(config, row, columns[k].index) == Some(rate)
              && forall j | k < j < n && columns[j].zone == zone :: RateIn(config, row, columns[j].index).None?
    ensures zone in Rates(config, row, columns, n) <==>
            exists k | 0 <= k < n :: columns[k].zone == zone && RateIn(config, row, columns[k].index).Some?
  {
    hide RateIn;
    if n > 0 {
      RatesExactly(config, row, columns, n - 1, zone, rate);
    }
  }

  lemma {:induction false} ZoneCellIsNext(row: Row, index: nat, zone: nat)
    ensures ZoneCellFrom(row, index) == Some(zone) <==>
            index <= zone < |row| && IsZoneCell(row, zone) && forall j | index <= j < zone :: !IsZoneCell(row, j)
    decreases |row| - index
  {
    hide IsZoneCell;
    if index < |row| && !IsZoneCell(row, index) {
      ZoneCellIsNext(row, index + 1, zone);
    }
  }

  lemma {:induction false} PairedCells(config: Config, row: Row, n: nat, country: nat, zone: nat)
    requires n <= |row|
    ensures CountryPair(country, zone) in CountryPairs(config, row, n) <==>
            && country < n && IsCountryCell(config, row, country)
            && country < zone < |row| && IsZoneCell(row, zone) && forall j | country < j < zone :: !IsZoneCell(row, j)
  {
    hide IsZoneCell, IsCountryCell;
    if n > 0 {
      PairedCells(config, row, n - 1, country, zone);
      ZoneCellIsNext(row, n, zone);
    }
  }

  lemma CellKinds(config: Config, row: Row, index: nat)
    requires index < |row|
    ensures IsZoneCell(row, index) <==> Lower(Trim(row[index])) == "zone"
    ensures IsCountryCell(config, row, index) <==> Trim(row[index]) != "" && config.countryHeader(Trim(row[index]))
  {
  }

  /** A country header pairs each of its country cells with the nearest zone cell to its right, and no
      other cells. */
  lemma CountryPairsExactly(config: Config, row: Row, n: nat, country: nat, zone: nat)
    requires n <= |row|
    ensures CountryPair(country, zone) in CountryPairs(config, row, n) <==>
            && country < n && Trim(row[country]) != "" && config.countryHeader(Trim(row[country]))
            && country < zone < |row| && Lower(Trim(row[zone])) == "zone"
            && forall j | country < j < zone :: Lower(Trim(row[j])) != "zone"
  {
    PairedCells(config, row, n, country, zone);
    forall index: nat | index < |row|
      ensures IsZoneCell(row, index) <==> Lower(Trim(row[index])) == "zone"
      ensures IsCountryCell(config, row, index) <==> Trim(row[index]) != "" && config.countryHeader(Trim(row[index]))
    {
      CellKinds(config, row, index);
    }
    hide IsZoneCell, IsCountryCell, CountryPairs, Trim, Lower;
  }

  /** Every slab is what one row contributes, read with the header, the section and the bound in force
      there, and the slabs come in the order of their rows. */
  ghost predicate FromRow(config: Config, rows: seq<Row>, i: nat, k: nat)
    requires i < |rows| && k < |Run(config, INITIAL, rows).slabs|
  {
    && |Run(config, INITIAL, rows[..i]).slabs| == k
    && Classify(config, Run(config, INITIAL, rows[..i]), rows[i]) == Priced(Run(config, INITIAL, rows).slabs[k])
  }

  lemma {:induction false} SlabHasRow(config: Config, rows: seq<Row>, k: nat) returns (i: nat)
    requires k < |Run(config, INITIAL, rows).slabs|
    ensures i < |rows| && FromRow(config, rows, i, k)
  {
    hide Classify;
    var n := |rows| - 1;
    var before := Run(config, INITIAL, rows[..n]);
    if k < |before.slabs| {
      i := SlabHasRow(config, rows[..n], k);
      assert rows[..n][..i] == rows[..i];
    } else {
      i := n;
    }
  }

  lemma {:induction false} ListedCells(row: Row, pairs: seq<CountryPair>, n: nat, listing: Listing)
    requires n <= |pairs|
    ensures listing in Listings(row, pairs, n) <==>
            && listing.country != "" && listing.zone != ""
            && exists k | 0 <= k < n :: listing == Listing(Cell(row, pairs[k].country), Cell(row, pairs[k].zone))
  {
    hide Cell;
    if n > 0 {
      ListedCells(row, pairs, n - 1, listing);
    }
  }

  /** A listing is read from a row exactly when some pair of columns holds it, both cells filled. */
  lemma ListingsExactly(row: Row, pairs: seq<CountryPair>, n: nat, listing: Listing)
    requires n <= |pairs|
    ensures listing in Listings(row, pairs, n) <==>
            && listing.country != "" && listing.zone != ""
            && exists k | 0 <= k < n ::
                 && listing.country == Trim(if pairs[k].country < |row| then row[pairs[k].country] else "")
                 && listing.zone == Trim(if pairs[k].zone < |row| then row[pairs[k].zone] else "")
  {
    ListedCells(row, pairs, n, listing);
    forall k | 0 <= k < n
      ensures Cell(row, pairs[k].country) == Trim(if pairs[k].country < |row| then row[pairs[k].country] else "")
      ensures Cell(row, pairs[k].zone) == Trim(if pairs[k].zone < |row| then row[pairs[k].zone] else "")
    {
      CellText(row, pairs[k].country);
      CellText(row, pairs[k].zone);
    }
    hide Cell, Trim, Listings;
  }

  /** They come in the order of their column pairs. */
  lemma {:induction false} ListingsInOrder(row: Row, pairs: seq<CountryPair>, n: nat, j: nat) returns (k: nat)
    requires n <= |pairs| && j < |Listings(row, pairs, n)|
    ensures k < n && |Listings(row, pairs, k)| == j
    ensures Listings(row, pairs, n)[j] == Listing(Cell(row, pairs[k].country), Cell(row, pairs[k].zone))
  {
    hide Cell;
    if j < |Listings(row, pairs, n - 1)| {
      k := ListingsInOrder(row, pairs, n - 1, j);
    } else {
      k := n - 1;
    }
  }

  /** The `k`-th listing is the `j`-th that row `i` carries under the column pairs in force there. */
  ghost predicate ListedOn(config: Config, rows: seq<Row>, k: nat, i: nat, j: nat)
    requires i < |rows| && k < |Run(config, INITIAL, rows).listings|
  {
    var before := Run(config, INITIAL, rows[..i]);
    && Classify(config, before, rows[i]) == CountryRow(Listings(rows[i], before.countryPairs, |before.countryPairs|))
    && j < |Listings(rows[i], before.countryPairs, |before.countryPairs|)|
    && |before.listings| + j == k
    && Listings(rows[i], before.countryPairs, |before.countryPairs|)[j] == Run(config, INITIAL, rows).listings[k]
  }

  /** What the last row adds to the listings before it. */
  lemma ListingsGrow(config: Config, rows: seq<Row>)
    requires rows != []
    ensures var before, row := Run(config, INITIAL, rows[..|rows| - 1]), rows[|rows| - 1];
            var kind := Classify(config, before, row);
            Run(config, INITIAL, rows).listings == before.listings + if kind.CountryRow? then kind.found else []
  {
    hide Classify;
  }

  lemma NothingListed(config: Config)
    ensures Run(config, INITIAL, []).listings == []
  {
  }

  lemma LastRowLists(config: Config, rows: seq<Row>, k: nat)
    requires rows != []
    requires |Run(config, INITIAL, rows[..|rows| - 1]).listings| <= k < |Run(config, INITIAL, rows).listings|
    ensures ListedOn(config, rows, k, |rows| - 1, k - |Run(config, INITIAL, rows[..|rows| - 1]).listings|)
  {
    hide Classify, Listings, Run;
    ListingsGrow(config, rows);
    CountryRowListings(config, Run(config, INITIAL, rows[..|rows| - 1]), rows[|rows| - 1]);
  }

  lemma StillListed(config: Config, rows: seq<Row>, k: nat, i: nat, j: nat)
    requires rows != [] && k < |Run(config, INITIAL, rows[..|rows| - 1]).listings|
    requires i < |rows| - 1 && ListedOn(config, rows[..|rows| - 1], k, i, j)
    ensures k < |Run(config, INITIAL, rows).listings| && ListedOn(config, rows, k, i, j)
  {
    hide Classify, Listings, Run;
    ListingsGrow(config, rows);
    assert rows[..|rows| - 1][..i] == rows[..i];
  }

  /** Every listing of a sheet is one of one row, in row order and none left out. */
  lemma {:induction false} ListingHasRow(config: Config, rows: seq<Row>, k: nat) returns (i: nat, j: nat)
    requires k < |Run(config, INITIAL, rows).listings|
    ensures i < |rows| && ListedOn(config, rows, k, i, j)
  {
    NothingListed(config);
    hide Run, ListedOn;
    var init := rows[..|rows| - 1];
    if k < |Run(config, INITIAL, init).listings| {
      i, j := ListingHasRow(config, init, k);
      StillListed(config, rows, k, i, j);
    } else {
      i, j := |rows| - 1, k - |Run(config, INITIAL, init).listings|;
      LastRowLists(config, rows, k);
    }
  }

  lemma CountryRowListings(config: Config, st: State, row: Row)
    ensures var kind := Classify(config, st, row);
            kind.CountryRow? ==> kind.found == Listings(row, st.countryPairs, |st.countryPairs|)
  {
    hide Listings, Cell, ParseWeight, Rates, ZoneHeader, CountryPairs, IsCountryCell, SectionHit;
  }

  // ---------------------------------------------------------------------------------------------
  // What each row is, and what is in force where
  // ---------------------------------------------------------------------------------------------

  ghost predicate BlankRow(row: Row) {
    forall i | 0 <= i < |row| :: row[i] == ""
  }

  /** Some cell is a rate header, and some cell names a zone. */
  ghost predicate HeadsRates(config: Config, row: Row) {
    && (exists i | 0 <= i < |row| :: config.rateHeader(Trim(row[i])))
    && exists i, zone | 0 <= i < |row| && zone != "" :: config.zoneName(Trim(row[i])) == Some(zone)
  }

  ghost predicate HeadsCountries(config: Config, row: Row) {
    exists i | 0 <= i < |row| :: Trim(row[i]) != "" && config.countryHeader(Trim(row[i]))
  }

  lemma HeadsRatesExactly(config: Config, row: Row)
    ensures HeadsRates(config, row) <==>
            (exists i | 0 <= i < |row| :: config.rateHeader(Cell(row, i))) && ZoneHeader(config, row, |row|) != []
  {
    var columns := ZoneHeader(config, row, |row|);
    if columns != [] {
      ZoneHeaderExactly(config, row, |row|, columns[0].zone, columns[0].index);
      assert columns[0] in columns;
    }
    if i, zone :| 0 <= i < |row| && zone != "" && config.zoneName(Trim(row[i])) == Some(zone) {
      ZoneHeaderExactly(config, row, |row|, zone, i);
    }
    assert forall i | 0 <= i < |row| :: Cell(row, i) == Trim(row[i]);
    hide ZoneHeader, Trim;
  }

  lemma HeadsCountriesExactly(config: Config, row: Row)
    ensures HeadsCountries(config, row) <==> exists i | 0 <= i < |row| :: IsCountryCell(config, row, i)
  {
    forall i | 0 <= i < |row|
      ensures IsCountryCell(config, row, i) <==> Trim(row[i]) != "" && config.countryHeader(Trim(row[i]))
    {
      CellKinds(config, row, i);
    }
    hide Trim, IsCountryCell;
  }

  lemma BlankExactly(row: Row)
    ensures BlankRow(row) <==> forall c | c in row :: c == ""
  {
    if BlankRow(row) {
      forall c | c in row
        ensures c == ""
      {
        var i :| 0 <= i < |row| && row[i] == c;
      }
    }
    assert forall i | 0 <= i < |row| :: row[i] in row;
  }

  /** A header row is one whatever else it holds; then come the country block, a section marker and
      last a weight; a row is read in one way only. */
  lemma RowKindExactly(config: Config, st: State, row: Row)
    ensures var kind := Classify(config, st, row);
            var first := Trim(if row != [] then row[0] else "");
            var listed := Listings(row, st.countryPairs, |st.countryPairs|);
            var marked := exists k | 0 <= k < |config.sections| :: config.sections[k].matches(first);
            && (kind.Blank? <==> BlankRow(row))
            && (kind.ZoneHeaderRow? <==> !BlankRow(row) && HeadsRates(config, row))
            && (kind.CountryHeaderRow? <==> !BlankRow(row) && !HeadsRates(config, row) && HeadsCountries(config, row))
            && (kind.CountryRow? <==>
                  !BlankRow(row) && !HeadsRates(config, row) && !HeadsCountries(config, row) && listed != [])
            && (kind.SectionRow? <==>
                  && !BlankRow(row) && !HeadsRates(config, row) && !HeadsCountries(config, row)
                  && listed == [] && marked)
  {
    hide ZoneHeader, CountryPairs, Listings, IsCountryCell, Trim;
    HeadsRatesExactly(config, row);
    HeadsCountriesExactly(config, row);
    if hit :| SectionHit(config.sections, Cell(row, 0)) == Some(hit) {
      FirstRuleDecides(config.sections, Cell(row, 0), hit);
    } else {
      FirstRuleDecides(config.sections, Cell(row, 0), Document);
    }
    BlankExactly(row);
    hide SectionHit, HeadsRates, HeadsCountries, BlankRow;
  }

  /** What each kind of row carries. A weight row needs a filled cell in the weight column under an open
      section and some zone columns; it is a note unless the cell is a weight and some zone has a rate. */
  lemma RowContents(config: Config, st: State, row: Row)
    ensures match Classify(config, st, row)
            case ZoneHeaderRow(columns) => columns == ZoneHeader(config, row, |row|)
            case CountryHeaderRow(pairs) => pairs == CountryPairs(config, row, |row|)
            case CountryRow(found) => found == Listings(row, st.countryPairs, |st.countryPairs|)
            case SectionRow(t) => SectionHit(config.sections, Trim(if row != [] then row[0] else "")) == Some(t)
            case Priced(slab) =>
              var raw := Trim(if config.weightColumn < |row| then row[config.weightColumn] else "");
              && raw != "" && st.section == Some(slab.shipmentType) && st.zoneColumns != []
              && ParseWeight(raw, st.previousTo) == Some(Weight(slab.from, slab.to, slab.rateType))
              && slab.rates == Rates(config, row, st.zoneColumns, |st.zoneColumns|) != map[]
            case Note =>
              var raw := Trim(if config.weightColumn < |row| then row[config.weightColumn] else "");
              && raw != "" && st.section.Some? && st.zoneColumns != []
              && (|| ParseWeight(raw, st.previousTo).None?
                  || Rates(config, row, st.zoneColumns, |st.zoneColumns|) == map[])
            case Unread =>
              || Trim(if config.weightColumn < |row| then row[config.weightColumn] else "") == ""
              || st.section.None? || st.zoneColumns == []
            case Blank => true
  {
    hide ZoneHeader, CountryPairs, Listings, IsCountryCell, Trim, SectionHit, ParseWeight, Rates, Cell;
    CellText(row, 0);
    CellText(row, config.weightColumn);
  }

  /** What the rows of a sheet are, each read in the state the ones before it left. */
  function Kinds(config: Config, rows: seq<Row>): (kinds: seq<RowKind>)
    ensures |kinds| == |rows|
  {
    if rows == [] then []
    else
      var before := rows[..|rows| - 1];
      Kinds(config, before) + [Classify(config, Run(config, INITIAL, before), rows[|rows| - 1])]
  }

  function Folded(kinds: seq<RowKind>): State {
    if kinds == [] then INITIAL else Apply(Folded(kinds[..|kinds| - 1]), kinds[|kinds| - 1])
  }

  lemma {:induction false} KindOfRow(config: Config, rows: seq<Row>, i: nat)
    requires i < |rows|
    ensures Kinds(config, rows)[i] == Classify(config, Run(config, INITIAL, rows[..i]), rows[i])
  {
    hide Classify, Run;
    if i < |rows| - 1 {
      KindOfRow(config, rows[..|rows| - 1], i);
      assert rows[..|rows| - 1][..i] == rows[..i];
    }
  }

  /** The state after some rows is what their kinds made of it, one after the other. */
  lemma {:induction false} RunIsFolded(config: Config, rows: seq<Row>)
    ensures Run(config, INITIAL, rows) == Folded(Kinds(config, rows))
  {
    hide Classify, Apply;
    if rows != [] {
      RunIsFolded(config, rows[..|rows| - 1]);
      assert Kinds(config, rows)[..|rows| - 1] == Kinds(config, rows[..|rows| - 1]);
    }
  }

  /** The zone columns in force are those of the last rate header, and none before the first. */
  lemma {:induction false} ColumnsInForce(kinds: seq<RowKind>, i: nat)
    requires i < |kinds| && kinds[i].ZoneHeaderRow?
    requires forall j | i < j < |kinds| :: !kinds[j].ZoneHeaderRow?
    ensures Folded(kinds).zoneColumns == kinds[i].columns
  {
    if i < |kinds| - 1 {
      ColumnsInForce(kinds[..|kinds| - 1], i);
    }
  }

  lemma {:induction false} NoColumnsYet(kinds: seq<RowKind>)
    requires forall i | 0 <= i < |kinds| :: !kinds[i].ZoneHeaderRow?
    ensures Folded(kinds).zoneColumns == []
  {
    if kinds != [] {
      NoColumnsYet(kinds[..|kinds| - 1]);
    }
  }

  /** The column pairs in force are those of the last country header. */
  lemma {:induction false} PairsInForce(kinds: seq<RowKind>, i: nat)
    requires i < |kinds| && kinds[i].CountryHeaderRow?
    requires forall j | i < j < |kinds| :: !kinds[j].CountryHeaderRow?
    ensures Folded(kinds).countryPairs == kinds[i].pairs
  {
    if i < |kinds| - 1 {
      PairsInForce(kinds[..|kinds| - 1], i);
    }
  }

  lemma {:induction false} NoPairsYet(kinds: seq<RowKind>)
    requires forall i | 0 <= i < |kinds| :: !kinds[i].CountryHeaderRow?
    ensures Folded(kinds).countryPairs == []
  {
    if kinds != [] {
      NoPairsYet(kinds[..|kinds| - 1]);
    }
  }

  /** The shipment type in force is that of the last section marker. */
  lemma {:induction false} SectionInForce(kinds: seq<RowKind>, i: nat)
    requires i < |kinds| && kinds[i].SectionRow?
    requires forall j | i < j < |kinds| :: !kinds[j].SectionRow?
    ensures Folded(kinds).section == Some(kinds[i].shipmentType)
  {
    if i < |kinds| - 1 {
      SectionInForce(kinds[..|kinds| - 1], i);
    }
  }

  lemma {:induction false} NoSectionYet(kinds: seq<RowKind>)
    requires forall i | 0 <= i < |kinds| :: !kinds[i].SectionRow?
    ensures Folded(kinds).section == None
  {
    if kinds != [] {
      NoSectionYet(kinds[..|kinds| - 1]);
    }
  }

  /** The ignored rows are the notes. */
  lemma {:induction false} IgnoredAreNotes(kinds: seq<RowKind>)
    ensures Folded(kinds).ignored == |set i | 0 <= i < |kinds| && kinds[i].Note?|
  {
    hide Apply;
    var notes := set i | 0 <= i < |kinds| && kinds[i].Note?;
    if kinds == [] {
      assert notes == {};
    } else {
      var n := |kinds| - 1;
      IgnoredAreNotes(kinds[..n]);
      NotesAreIgnored(Folded(kinds[..n]), kinds[n]);
      var before := set i | 0 <= i < n && kinds[..n][i].Note?;
      assert notes == before + if kinds[n].Note? then {n} else {};
    }
  }

  lemma NotesAreIgnored(st: State, kind: RowKind)
    ensures Apply(st, kind).ignored == st.ignored + if kind.Note? then 1 else 0
  {
  }
}
