/** Applying a parsed tariff: the country resolution loop and the keyed tables it is written to. */
module TariffStore {
  import opened Text
  import opened SheetWeights
  import opened TariffSheet
  import opened SlabLookup

  type Id = nat

  // ---------------------------------------------------------------------------------------------
  // Resolving the printed countries
  // ---------------------------------------------------------------------------------------------

  datatype Assignment = Assignment(country: Id, zone: string)

  ghost predicate Names(listing: Listing, country: Id, zones: set<string>, resolve: string -> Option<Id>) {
    listing.zone in zones && resolve(listing.country) == Some(country)
  }

  /** Among the first `n` listings, the country's first one under a zone with rates puts it in `zone`. */
  ghost predicate FirstNamed(listings: seq<Listing>, n: nat, country: Id, zone: string, zones: set<string>,
                             resolve: string -> Option<Id>)
    requires n <= |listings|
  {
    exists i | 0 <= i < n ::
      && Names(listings[i], country, zones, resolve)
      && listings[i].zone == zone
      && forall j | 0 <= j < i :: !Names(listings[j], country, zones, resolve)
  }

  ghost predicate NamedBy(listings: seq<Listing>, n: nat, country: Id, zones: set<string>,
                          resolve: string -> Option<Id>)
    requires n <= |listings|
  {
    exists i | 0 <= i < n :: Names(listings[i], country, zones, resolve)
  }

  /** No country twice, and each in the zone of its first usable listing. */
  ghost predicate ResolvedSoFar(listings: seq<Listing>, n: nat, zones: set<string>, resolve: string -> Option<Id>,
                                resolved: seq<Assignment>)
    requires n <= |listings|
  {
    && (forall i, j | 0 <= i < j < |resolved| :: resolved[i].country != resolved[j].country)
    && (forall country: Id, zone: string ::
          Assignment(country, zone) in resolved <==> FirstNamed(listings, n, country, zone, zones, resolve))
  }

  /** Listings whose zone has no rates and countries that resolve to nothing are set aside; of several
      listings of one country the first one with a known zone is kept and the others are dropped. */
  method ResolveListings(listings: seq<Listing>, zones: set<string>, resolve: string -> Option<Id>)
    returns (resolved: seq<Assignment>)
    ensures ResolvedSoFar(listings, |listings|, zones, resolve, resolved)
  {
    resolved := [];
    var seen: set<Id> := {};
    for k := 0 to |listings|
      invariant ResolvedSoFar(listings, k, zones, resolve, resolved)
      invariant forall country: Id :: country in seen <==> NamedBy(listings, k, country, zones, resolve)
    {
      var listing := listings[k];
      var hit := resolve(listing.country);
      ResolveNext(listings, k, zones, resolve, resolved);
      if listing.zone in zones && hit.Some? && hit.value !in seen {
        seen := seen + {hit.value};
        resolved := resolved + [Assignment(hit.value, listing.zone)];
      }
      hide ResolvedSoFar;
    }
  }

  lemma ResolveNext(listings: seq<Listing>, k: nat, zones: set<string>, resolve: string -> Option<Id>,
                    resolved: seq<Assignment>)
    requires k < |listings| && ResolvedSoFar(listings, k, zones, resolve, resolved)
    ensures var hit, zone := resolve(listings[k].country), listings[k].zone;
            if zone in zones && hit.Some? && !NamedBy(listings, k, hit.value, zones, resolve) then
              ResolvedSoFar(listings, k + 1, zones, resolve, resolved + [Assignment(hit.value, zone)])
            else ResolvedSoFar(listings, k + 1, zones, resolve, resolved)
    ensures forall country: Id ::
              NamedBy(listings, k + 1, country, zones, resolve) <==>
              NamedBy(listings, k, country, zones, resolve)
              || (listings[k].zone in zones && resolve(listings[k].country) == Some(country))
  {
    forall country: Id, zone: string
      ensures FirstNamed(listings, k + 1, country, zone, zones, resolve) <==>
              || FirstNamed(listings, k, country, zone, zones, resolve)
              || (!NamedBy(listings, k, country, zones, resolve) && Names(listings[k], country, zones, resolve)
                  && listings[k].zone == zone)
      ensures FirstNamed(listings, k, country, zone, zones, resolve) ==> NamedBy(listings, k, country, zones, resolve)
    {
    }
    forall country: Id
      ensures NamedBy(listings, k + 1, country, zones, resolve) <==>
              NamedBy(listings, k, country, zones, resolve) || Names(listings[k], country, zones, resolve)
    {
    }
    hide FirstNamed, NamedBy;
    assert forall a | a in resolved :: Assignment(a.country, a.zone) == a;
  }

  // ---------------------------------------------------------------------------------------------
  // The slab table
  // ---------------------------------------------------------------------------------------------

  datatype Rate = Rate(from: real, to: real, baseRate: real, rateType: RateType)

  /** The unique keys of the zone and rate card tables stand for their generated identifiers. */
  datatype ZoneKey = ZoneKey(provider: string, name: string)

  datatype CardKey = CardKey(zone: ZoneKey, shipmentType: ShipmentType)

  datatype SlabRow = SlabRow(id: Id, card: CardKey, rate: Rate, active: bool)

  function ActiveRates(table: seq<SlabRow>, card: CardKey): seq<Rate> {
    if table == [] then []
    else
      var last := table[|table| - 1];
      ActiveRates(table[..|table| - 1], card) + (if last.card == card && last.active then [last.rate] else [])
  }

  /** What the importer writes for a zone: each slab with the zone's own rate. */
  function RatesFor(slabs: seq<Slab>, zone: string): seq<Rate>
    requires forall slab | slab in slabs :: zone in slab.rates
  {
    if slabs == [] then []
    else
      var last := slabs[|slabs| - 1];
      RatesFor(slabs[..|slabs| - 1], zone) + [Rate(last.from, last.to, last.rates[zone], last.rateType)]
  }

  /** The card's rows no quote refers to are deleted, and the others switched off. */
  function Retired(table: seq<SlabRow>, card: CardKey, quoted: set<Id>): seq<SlabRow> {
    if table == [] then []
    else
      var last := table[|table| - 1];
      Retired(table[..|table| - 1], card, quoted) +
      (if last.card != card then [last] else if last.id in quoted then [last.(active := false)] else [])
  }

  lemma {:induction false} RetiredActive(table: seq<SlabRow>, card: CardKey, quoted: set<Id>, other: CardKey)
    ensures ActiveRates(Retired(table, card, quoted), other) == if other == card then [] else ActiveRates(table, other)
  {
    if table != [] {
      var rest, last := Retired(table[..|table| - 1], card, quoted), table[|table| - 1];
      RetiredActive(table[..|table| - 1], card, quoted, other);
      ActiveRatesOfAppend(rest, last, other);
      ActiveRatesOfAppend(rest, last.(active := false), other);
      assert rest + [] == rest;
    }
  }

  /** No quoted row is lost, none is altered beyond being switched off, and no row appears. */
  lemma {:induction false} RetiredRows(table: seq<SlabRow>, card: CardKey, quoted: set<Id>, row: SlabRow)
    ensures row in Retired(table, card, quoted) <==>
            || (row in table && row.card != card)
            || (row.card == card && row.id in quoted && !row.active && (row in table || row.(active := true) in table))
  {
    if table != [] {
      RetiredRows(table[..|table| - 1], card, quoted, row);
      assert table == table[..|table| - 1] + [table[|table| - 1]];
    }
  }

  lemma {:induction false} RetiredFrom(table: seq<SlabRow>, card: CardKey, quoted: set<Id>)
    ensures forall row | row in Retired(table, card, quoted) ::
              exists before :: before in table && before.id == row.id && before.card == row.card
    ensures forall row | row in table && row.id in quoted ::
              row in Retired(table, card, quoted) || row.(active := false) in Retired(table, card, quoted)
  {
    forall row | row in Retired(table, card, quoted)
      ensures exists before :: before in table && before.id == row.id && before.card == row.card
    {
      RetiredRows(table, card, quoted, row);
      assert row in table || row.(active := true) in table;
    }
    forall row | row in table && row.id in quoted
      ensures row in Retired(table, card, quoted) || row.(active := false) in Retired(table, card, quoted)
    {
      RetiredRows(table, card, quoted, row);
      RetiredRows(table, card, quoted, row.(active := false));
      assert row.active ==> row.(active := false).(active := true) == row;
    }
  }

  lemma ActiveRatesOfAppend(table: seq<SlabRow>, row: SlabRow, card: CardKey)
    ensures ActiveRates(table + [row], card) ==
            ActiveRates(table, card) + if row.card == card && row.active then [row.rate] else []
  {
    assert (table + [row])[..|table|] == table;
  }

  // ---------------------------------------------------------------------------------------------
  // The keyed tables
  // ---------------------------------------------------------------------------------------------

  /** A card the sheet prices holds exactly the sheet's rates; any other keeps what it had. */
  function Replaced(card: CardKey, parsed: seq<Slab>, before: seq<Rate>): seq<Rate> {
    var forType := CardSlabs(parsed, card.shipmentType, card.zone.name);
    if forType == [] then before else RatesFor(forType, card.zone.name)
  }

  /** The country assignments an import writes, latest entry last. */
  function Placed(code: string, zoneNames: seq<string>, resolved: seq<Assignment>): map<(string, Id), string> {
    if resolved == [] then map[]
    else
      var last, rest := resolved[|resolved| - 1], Placed(code, zoneNames, resolved[..|resolved| - 1]);
      if last.zone in zoneNames then rest[(code, last.country) := last.zone] else rest
  }

  lemma NothingPlaced(code: string, zoneNames: seq<string>)
    ensures Placed(code, zoneNames, []) == map[]
  {
  }

  lemma PlacedNext(code: string, zoneNames: seq<string>, resolved: seq<Assignment>, k: nat)
    requires k < |resolved|
    ensures Placed(code, zoneNames, resolved[..k + 1]) ==
            var before := Placed(code, zoneNames, resolved[..k]);
            if resolved[k].zone in zoneNames then before[(code, resolved[k].country) := resolved[k].zone] else before
  {
    assert resolved[..k + 1][..k] == resolved[..k];
  }

  lemma AssignedAfter<K, V>(now: map<K, V>, before: map<K, V>, placed: map<K, V>, key: K, value: V)
    requires now == before + placed
    ensures now[key := value] == before + placed[key := value]
  {
  }

  /** The rate is what this slab says for the card: its bounds, the zone's own price and the slab's rate
      type. */
  ghost predicate Writes(slab: Slab, card: CardKey, rate: Rate) {
    && slab.shipmentType == card.shipmentType && card.zone.name in slab.rates
    && rate.from == slab.from && rate.to == slab.to
    && rate.baseRate == slab.rates[card.zone.name] && rate.rateType == slab.rateType
  }

  /** The sheet prices the card in some slab. */
  ghost predicate Prices(parsed: seq<Slab>, card: CardKey) {
    exists slab | slab in parsed :: slab.shipmentType == card.shipmentType && card.zone.name in slab.rates
  }

  lemma {:induction false} RatesForAt(slabs: seq<Slab>, zone: string, i: nat)
    requires (forall slab | slab in slabs :: zone in slab.rates) && i < |slabs|
    ensures |RatesFor(slabs, zone)| == |slabs|
    ensures RatesFor(slabs, zone)[i] == Rate(slabs[i].from, slabs[i].to, slabs[i].rates[zone], slabs[i].rateType)
  {
    var n := |slabs| - 1;
    if n > 0 {
      RatesForAt(slabs[..n], zone, if i < n then i else 0);
    }
    if i < n {
      assert slabs[..n][i] == slabs[i];
    }
  }

  /** The card's slabs are taken from the sheet in its order. */
  lemma {:induction false} CardSlabAt(slabs: seq<Slab>, shipmentType: ShipmentType, zone: string, j: nat)
    returns (k: nat)
    requires j < |CardSlabs(slabs, shipmentType, zone)|
    ensures k < |slabs| && CardSlabs(slabs, shipmentType, zone)[j] == slabs[k]
    ensures |CardSlabs(slabs[..k], shipmentType, zone)| == j
  {
    var n := |slabs| - 1;
    if j < |CardSlabs(slabs[..n], shipmentType, zone)| {
      k := CardSlabAt(slabs[..n], shipmentType, zone, j);
      assert slabs[..n][..k] == slabs[..k];
    } else {
      k := n;
    }
  }

  /** A card the sheet prices gets one rate for each slab that prices it, in order, each with the slab's
      bounds, the zone's price and the slab's rate type; any other card keeps what it had. */
  lemma ReplacedExactly(card: CardKey, parsed: seq<Slab>, before: seq<Rate>, rate: Rate)
    ensures !Prices(parsed, card) ==> Replaced(card, parsed, before) == before
    ensures Prices(parsed, card) ==>
              (rate in Replaced(card, parsed, before) <==> exists slab | slab in parsed :: Writes(slab, card, rate))
    ensures Prices(parsed, card) ==>
              var forType := CardSlabs(parsed, card.shipmentType, card.zone.name);
              && |Replaced(card, parsed, before)| == |forType|
              && forall i | 0 <= i < |forType| :: Writes(forType[i], card, Replaced(card, parsed, before)[i])
  {
    var forType, zone := CardSlabs(parsed, card.shipmentType, card.zone.name), card.zone.name;
    if Prices(parsed, card) {
      var some :| some in parsed && some.shipmentType == card.shipmentType && zone in some.rates;
      assert some in forType;
      forall i | 0 <= i < |forType|
        ensures |RatesFor(forType, zone)| == |forType| && Writes(forType[i], card, RatesFor(forType, zone)[i])
      {
        RatesForAt(forType, zone, i);
        assert forType[i] in forType;
      }
      RatesForAt(forType, zone, 0);
      if slab :| slab in parsed && Writes(slab, card, rate) {
        assert slab in forType;
        var i :| 0 <= i < |forType| && forType[i] == slab;
        assert RatesFor(forType, zone)[i] == rate;
      }
      if rate in RatesFor(forType, zone) {
        var i :| 0 <= i < |forType| && RatesFor(forType, zone)[i] == rate;
        assert forType[i] in parsed;
      }
    } else {
      assert forall slab :: slab !in forType;
    }
    hide CardSlabs, RatesFor;
  }

  class TariffStore {
    var providers: set<string>
    var zones: set<ZoneKey>
    var cards: set<CardKey>
    var slabs: seq<SlabRow>
    /** Slabs some saved quote refers to. */
    var quoted: set<Id>
    /** Keyed by (provider, country), so a country has at most one zone per provider. */
    var zoneOf: map<(string, Id), string>
    var nextId: Id

    /** Every foreign key names a stored row. */
    ghost predicate Valid()
      reads this
    {
      && (forall zone | zone in zones :: zone.provider in providers)
      && (forall card | card in cards :: card.zone in zones)
      && (forall row | row in slabs :: row.card in cards && row.id < nextId)
      && AssignedZonesExist()
      && (forall id | id in quoted :: id < nextId)
    }

    ghost predicate AssignedZonesExist()
      reads this
    {
      forall k | k in zoneOf :: ZoneKey(k.0, zoneOf[k]) in zones
    }

    /** Quoted slabs survive, at most switched off. */
    twostate predicate KeepsQuoted()
      reads this
    {
      && quoted == old(quoted)
      && forall row | row in old(slabs) && row.id in quoted :: row in slabs || row.(active := false) in slabs
    }

    method UpsertCard(zone: ZoneKey, shipmentType: ShipmentType) returns (card: CardKey)
      requires Valid() && zone in zones
      modifies this`cards
      ensures Valid() && card == CardKey(zone, shipmentType) && cards == old(cards) + {card}
    {
      card := CardKey(zone, shipmentType);
      cards := cards + {card};
    }

    method DeleteUnquotedAndRetire(card: CardKey)
      requires Valid()
      modifies this`slabs
      ensures Valid() && KeepsQuoted()
      ensures forall other :: ActiveRates(slabs, other) == if other == card then [] else old(ActiveRates(slabs, other))
    {
      hide Retired, ActiveRates;
      forall other {
        RetiredActive(slabs, card, quoted, other);
      }
      RetiredFrom(slabs, card, quoted);
      slabs := Retired(slabs, card, quoted);
    }

    /** The card's active slabs become the parsed ones, whatever they were before. */
    method ReplaceSlabs(card: CardKey, forType: seq<Slab>, zone: string)
      requires Valid() && card in cards
      requires forall slab | slab in forType :: zone in slab.rates
      modifies this`slabs, this`nextId
      ensures Valid() && KeepsQuoted()
      ensures forall other ::
                ActiveRates(slabs, other) == if other == card then RatesFor(forType, zone)
                  else old(ActiveRates(slabs, other))
    {
      hide ActiveRates;
      DeleteUnquotedAndRetire(card);
      for k := 0 to |forType|
        invariant Valid() && KeepsQuoted()
        invariant forall other ::
                    ActiveRates(slabs, other) == if other == card then RatesFor(forType[..k], zone)
                      else old(ActiveRates(slabs, other))
      {
        var slab := forType[k];
        var row := SlabRow(nextId, card, Rate(slab.from, slab.to, slab.rates[zone], slab.rateType), true);
        forall other {
          ActiveRatesOfAppend(slabs, row, other);
        }
        assert forType[..k + 1][..k] == forType[..k];
        slabs := slabs + [row];
        nextId := nextId + 1;
      }
      assert forType[..|forType|] == forType;
    }

    method ApplyCard(zone: ZoneKey, shipmentType: ShipmentType, parsed: seq<Slab>)
      requires Valid() && zone in zones
      modifies this`cards, this`slabs, this`nextId
      ensures Valid() && KeepsQuoted()
      ensures forall other ::
                ActiveRates(slabs, other) ==
                if other == CardKey(zone, shipmentType) then Replaced(other, parsed, old(ActiveRates(slabs, other)))
                else old(ActiveRates(slabs, other))
    {
      hide ActiveRates, CardSlabs, RatesFor;
      var forType := CardSlabs(parsed, shipmentType, zone.name);
      if forType != [] {
        var card := UpsertCard(zone, shipmentType);
        ReplaceSlabs(card, forType, zone.name);
      }
    }

    method UpsertZones(code: string, zoneNames: seq<string>)
      requires Valid()
      modifies this`providers, this`zones
      ensures Valid()
      ensures providers == old(providers) + {code}
      ensures zones == old(zones) + set name | name in zoneNames :: ZoneKey(code, name)
    {
      providers := providers + {code};
      for k := 0 to |zoneNames|
        invariant Valid() && providers == old(providers) + {code}
        invariant zones == old(zones) + set name | name in zoneNames[..k] :: ZoneKey(code, name)
      {
        zones := zones + {ZoneKey(code, zoneNames[k])};
      }
    }

    method AssignCountries(code: string, zoneNames: seq<string>, resolved: seq<Assignment>)
      requires Valid() && forall name | name in zoneNames :: ZoneKey(code, name) in zones
      modifies this`zoneOf
      ensures Valid()
      ensures zoneOf == old(zoneOf) + Placed(code, zoneNames, resolved)
    {
      NothingPlaced(code, zoneNames);
      hide Placed;
      for k := 0 to |resolved|
        invariant AssignedZonesExist()
        invariant zoneOf == old(zoneOf) + Placed(code, zoneNames, resolved[..k])
      {
        PlacedNext(code, zoneNames, resolved, k);
        if resolved[k].zone in zoneNames {
          AssignedAfter(zoneOf, old(zoneOf), Placed(code, zoneNames, resolved[..k]), (code, resolved[k].country),
                        resolved[k].zone);
          zoneOf := zoneOf[(code, resolved[k].country) := resolved[k].zone];
        }
      }
      assert resolved[..|resolved|] == resolved;
    }

    /** The whole import of one carrier. The result for a card it prices does not depend on what the
        card held before, so an interrupted import is mended by running it again: it then holds just
        the rates the sheet's slabs say. */
    method Apply(code: string, zoneNames: seq<string>, parsed: seq<Slab>, resolved: seq<Assignment>)
      requires Valid()
      modifies this
      ensures Valid() && KeepsQuoted()
      ensures forall card ::
                ActiveRates(slabs, card) ==
                if card.zone.provider == code && card.zone.name in zoneNames
                  then Replaced(card, parsed, old(ActiveRates(slabs, card)))
                else old(ActiveRates(slabs, card))
      ensures forall card: CardKey, rate: Rate |
                card.zone.provider == code && card.zone.name in zoneNames && Prices(parsed, card) ::
                rate in ActiveRates(slabs, card) <==> exists slab | slab in parsed :: Writes(slab, card, rate)
      ensures zoneOf == old(zoneOf) + Placed(code, zoneNames, resolved)
    {
      hide ActiveRates, CardSlabs, RatesFor, Placed, Writes, Prices;
      ghost var before := slabs;
      UpsertZones(code, zoneNames);
      for k := 0 to |zoneNames|
        invariant Valid() && KeepsQuoted() && zoneOf == old(zoneOf)
        invariant zones == old(zones) + set name | name in zoneNames :: ZoneKey(code, name)
        invariant forall card ::
                    ActiveRates(slabs, card) ==
                    if card.zone.provider == code && card.zone.name in zoneNames[..k]
                      then Replaced(card, parsed, old(ActiveRates(slabs, card)))
                    else old(ActiveRates(slabs, card))
      {
        ApplyZone(ZoneKey(code, zoneNames[k]), parsed);
      }
      AssignCountries(code, zoneNames, resolved);
      forall card: CardKey, rate: Rate |
        card.zone.provider == code && card.zone.name in zoneNames && Prices(parsed, card)
        ensures rate in ActiveRates(slabs, card) <==> exists slab | slab in parsed :: Writes(slab, card, rate)
      {
        ReplacedExactly(card, parsed, ActiveRates(before, card), rate);
      }
    }

    method ApplyZone(zone: ZoneKey, parsed: seq<Slab>)
      requires Valid() && zone in zones
      modifies this`cards, this`slabs, this`nextId
      ensures Valid() && KeepsQuoted()
      ensures forall card ::
                ActiveRates(slabs, card) ==
                if card.zone == zone then Replaced(card, parsed, old(ActiveRates(slabs, card)))
                else old(ActiveRates(slabs, card))
    {
      hide ActiveRates, Replaced;
      ghost var before := slabs;
      ApplyCard(zone, Document, parsed);
      ghost var between := slabs;
      ApplyCard(zone, Package, parsed);
      forall card
        ensures ActiveRates(slabs, card) == if card.zone == zone then Replaced(card, parsed, ActiveRates(before, card))
                else ActiveRates(before, card)
      {
        match card.shipmentType
        case Document =>
        case Package =>
      }
    }

    /** Applying the same tariff again leaves every active rate and every assignment as the first run
        left it. */
    method ApplyTwice(code: string, zoneNames: seq<string>, parsed: seq<Slab>, resolved: seq<Assignment>)
      requires Valid()
      modifies this
      ensures Valid() && KeepsQuoted()
      ensures forall card ::
                ActiveRates(slabs, card) ==
                if card.zone.provider == code && card.zone.name in zoneNames
                  then Replaced(card, parsed, old(ActiveRates(slabs, card)))
                else old(ActiveRates(slabs, card))
      ensures zoneOf == old(zoneOf) + Placed(code, zoneNames, resolved)
    {
      hide ActiveRates, CardSlabs, RatesFor, Placed;
      Apply(code, zoneNames, parsed, resolved);
      Apply(code, zoneNames, parsed, resolved);
    }
  }

  // ---------------------------------------------------------------------------------------------
  // From the sheet to the quote
  // ---------------------------------------------------------------------------------------------

  /** Among assignments of distinct countries, a country is placed exactly where its one entry says. */
  lemma {:induction false} PlacedWhereResolved(code: string, zoneNames: seq<string>, resolved: seq<Assignment>,
                                               country: Id, zone: string)
    requires forall i, j | 0 <= i < j < |resolved| :: resolved[i].country != resolved[j].country
    ensures && (code, country) in Placed(code, zoneNames, resolved)
            && Placed(code, zoneNames, resolved)[(code, country)] == zone
            <==> zone in zoneNames && Assignment(country, zone) in resolved
  {
    if resolved != [] {
      var rest, last := resolved[..|resolved| - 1], resolved[|resolved| - 1];
      assert resolved == rest + [last];
      PlacedWhereResolved(code, zoneNames, rest, country, zone);
      if (code, country) in Placed(code, zoneNames, rest) {
        PlacedWhereResolved(code, zoneNames, rest, country, Placed(code, zoneNames, rest)[(code, country)]);
      }
    }
  }

  predicate RateCovers(rate: Rate, weight: real) {
    rate.from <= weight <= rate.to
  }

  /** After an import whose sheet prices the zone in every slab of the type, the card's active rates
      cover exactly the weights from zero to the type's greatest printed bound. */
  lemma {:induction false} ImportedCardNeverMisses(config: Config, rows: seq<Row>, table: seq<SlabRow>, card: CardKey,
                                                   before: seq<Rate>, weight: real)
    requires var parsed := Run(config, INITIAL, rows).slabs;
             && ActiveRates(table, card) == Replaced(card, parsed, before)
             && (exists slab | slab in parsed :: slab.shipmentType == card.shipmentType)
             && forall slab | slab in parsed && slab.shipmentType == card.shipmentType :: card.zone.name in slab.rates
    ensures (exists rate | rate in ActiveRates(table, card) :: RateCovers(rate, weight)) <==>
            0.0 <= weight && exists slab | slab in Run(config, INITIAL, rows).slabs ::
                slab.shipmentType == card.shipmentType && weight <= slab.to
  {
    var parsed := Run(config, INITIAL, rows).slabs;
    var slabs := CardSlabs(parsed, card.shipmentType, card.zone.name);
    PricedZoneNeverMisses(config, rows, card.shipmentType, card.zone.name, weight);
    var slab :| slab in parsed && slab.shipmentType == card.shipmentType;
    assert slab in slabs;
    RatesForCover(slabs, card.zone.name, weight);
  }

  lemma {:induction false} RatesForCover(slabs: seq<Slab>, zone: string, weight: real)
    requires forall slab | slab in slabs :: zone in slab.rates
    ensures (exists rate | rate in RatesFor(slabs, zone) :: RateCovers(rate, weight)) <==>
            exists slab | slab in slabs :: Covers(slab, weight)
  {
    if slabs != [] {
      var rest, last := slabs[..|slabs| - 1], slabs[|slabs| - 1];
      assert slabs == rest + [last];
      RatesForCover(rest, zone, weight);
      var rate := Rate(last.from, last.to, last.rates[zone], last.rateType);
      assert RateCovers(rate, weight) == Covers(last, weight);
      assert rate in RatesFor(slabs, zone);
    }
  }

  /** What a parcel pays: after an import, the rate covering a weight has the price and the rate type of a
      slab of the sheet that covers it. */
  lemma ImportedPrice(card: CardKey, parsed: seq<Slab>, before: seq<Rate>, weight: real, price: real,
                      rateType: RateType)
    requires Prices(parsed, card)
    ensures (exists rate | rate in Replaced(card, parsed, before) ::
               rate.from <= weight <= rate.to && rate.baseRate == price && rate.rateType == rateType) <==>
            exists slab | slab in parsed ::
              && slab.shipmentType == card.shipmentType && card.zone.name in slab.rates
              && slab.from <= weight <= slab.to && slab.rates[card.zone.name] == price && slab.rateType == rateType
  {
    hide Replaced, Prices;
    if slab :| slab in parsed && slab.shipmentType == card.shipmentType && card.zone.name in slab.rates &&
               slab.from <= weight <= slab.to && slab.rates[card.zone.name] == price && slab.rateType == rateType {
      var rate := Rate(slab.from, slab.to, price, rateType);
      ReplacedExactly(card, parsed, before, rate);
      assert Writes(slab, card, rate);
    }
    if rate :| rate in Replaced(card, parsed, before) && rate.from <= weight <= rate.to && rate.baseRate == price &&
               rate.rateType == rateType {
      ReplacedExactly(card, parsed, before, rate);
    }
  }
}
