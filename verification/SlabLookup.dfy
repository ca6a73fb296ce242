/** The weight axis: what the parsed slabs cover, and what the quote engine's lookup finds in them. */
module SlabLookup {
  import opened Text
  import opened TariffSheet

  // ---------------------------------------------------------------------------------------------
  // The shape of a parsed tariff: one chain of slabs per section marker
  // ---------------------------------------------------------------------------------------------

  datatype Section = Section(shipmentType: ShipmentType, slabs: seq<Slab>)

  /** The sheet read section by section: every marker opens a new section, every priced row joins
      the section that is open. */
  ghost function Sections(config: Config, rows: seq<Row>): seq<Section> {
    if rows == [] then []
    else
      var before := rows[..|rows| - 1];
      Extend(Sections(config, before), Classify(config, Run(config, INITIAL, before), rows[|rows| - 1]))
  }

  ghost function Extend(sections: seq<Section>, kind: RowKind): seq<Section> {
    match kind
    case SectionRow(t) => sections + [Section(t, [])]
    case Priced(slab) =>
      if sections == [] then sections
      else
        var last := sections[|sections| - 1];
        sections[..|sections| - 1] + [last.(slabs := last.slabs + [slab])]
    case _ => sections
  }

  ghost function AllSlabs(sections: seq<Section>): seq<Slab> {
    if sections == [] then [] else AllSlabs(sections[..|sections| - 1]) + sections[|sections| - 1].slabs
  }

  function EndOf(slabs: seq<Slab>): real {
    if slabs == [] then 0.0 else slabs[|slabs| - 1].to
  }

  /** Slab `i` begins where the one before ended, or at zero when it is the first. */
  ghost predicate Linked(slabs: seq<Slab>, i: nat)
    requires i < |slabs|
  {
    slabs[i].from == (if i == 0 then 0.0 else slabs[i - 1].to) && 0.0 <= slabs[i].to
  }

  ghost predicate Chained(slabs: seq<Slab>) {
    forall i | 0 <= i < |slabs| :: Linked(slabs, i)
  }

  ghost predicate WellSectioned(section: Section) {
    Chained(section.slabs) && forall i | 0 <= i < |section.slabs| ::
        section.slabs[i].shipmentType == section.shipmentType
  }

  /** The parser's slabs are exactly its sections' slabs in order, and every section is a chain from
      zero of slabs of its own shipment type. */
  ghost predicate Agree(st: State, sections: seq<Section>) {
    && st.slabs == AllSlabs(sections)
    && (forall i | 0 <= i < |sections| :: WellSectioned(sections[i]))
    && (st.section == if sections == [] then None else Some(sections[|sections| - 1].shipmentType))
    && (sections != [] ==> st.previousTo == EndOf(sections[|sections| - 1].slabs))
  }

  lemma {:induction false} SectionsChain(config: Config, rows: seq<Row>)
    ensures Agree(Run(config, INITIAL, rows), Sections(config, rows))
  {
    hide Classify, Agree;
    if rows == [] {
      NothingAgrees();
    } else {
      var before, row := rows[..|rows| - 1], rows[|rows| - 1];
      var st := Run(config, INITIAL, before);
      SectionsChain(config, before);
      PricedContinues(config, st, row);
      ExtendAgrees(st, Sections(config, before), Classify(config, st, row));
    }
  }

  lemma NothingAgrees()
    ensures Agree(INITIAL, [])
  {
  }

  lemma ExtendAgrees(st: State, sections: seq<Section>, kind: RowKind)
    requires Agree(st, sections)
    requires kind.Priced? ==>
               st.section == Some(kind.slab.shipmentType) && kind.slab.from == st.previousTo && 0.0 <= kind.slab.to
    ensures Agree(Apply(st, kind), Extend(sections, kind))
  {
    hide Chained, AllSlabs;
    match kind
    case SectionRow(t) =>
      ChainOfNone();
      AllSlabsOfAppend(sections, Section(t, []));
    case Priced(slab) =>
      var init, last := sections[..|sections| - 1], sections[|sections| - 1];
      var longer := last.(slabs := last.slabs + [slab]);
      assert sections == init + [last];
      assert WellSectioned(last);
      ChainExtends(last.slabs, slab);
      assert WellSectioned(longer);
      AllSlabsOfAppend(init, last);
      AllSlabsOfAppend(init, longer);
      assert AllSlabs(init) + last.slabs + [slab] == AllSlabs(init) + longer.slabs;
    case _ =>
  }

  lemma AllSlabsOfAppend(init: seq<Section>, last: Section)
    ensures AllSlabs(init + [last]) == AllSlabs(init) + last.slabs
  {
    assert (init + [last])[..|init|] == init;
  }

  lemma PricedContinues(config: Config, st: State, row: Row)
    ensures var kind := Classify(config, st, row);
            kind.Priced? ==>
              st.section == Some(kind.slab.shipmentType) && kind.slab.from == st.previousTo && 0.0 <= kind.slab.to
  {
    hide ZoneHeader, CountryPairs, Listings, Rates, Cell, IsCountryCell;
  }

  lemma ChainOfNone()
    ensures Chained([])
  {
  }

  lemma ChainExtends(slabs: seq<Slab>, slab: Slab)
    requires Chained(slabs) && slab.from == EndOf(slabs) && 0.0 <= slab.to
    ensures Chained(slabs + [slab])
  {
    forall i | 0 <= i < |slabs + [slab]|
      ensures Linked(slabs + [slab], i)
    {
      assert i < |slabs| ==> Linked(slabs, i);
    }
  }

  // ---------------------------------------------------------------------------------------------
  // The lookup
  // ---------------------------------------------------------------------------------------------

  predicate Covers(slab: Slab, weight: real) {
    slab.from <= weight <= slab.to
  }

  /** The quote engine's `find`: the first slab whose closed range holds the weight. */
  function FindSlab(slabs: seq<Slab>, weight: real): (found: Option<Slab>)
    ensures found.Some? <==> exists slab | slab in slabs :: Covers(slab, weight)
    ensures found.Some? ==> found.value in slabs && Covers(found.value, weight)
  {
    if slabs == [] then None
    else if Covers(slabs[0], weight) then Some(slabs[0])
    else FindSlab(slabs[1..], weight)
  }

  /** The slabs written to the rate card of one zone and shipment type. */
  function CardSlabs(slabs: seq<Slab>, shipmentType: ShipmentType, zone: string): (card: seq<Slab>)
    ensures forall slab :: slab in card <==> slab in slabs && slab.shipmentType == shipmentType && zone in slab.rates
  {
    if slabs == [] then []
    else
      var last := slabs[|slabs| - 1];
      CardSlabs(slabs[..|slabs| - 1], shipmentType, zone) +
      (if last.shipmentType == shipmentType && zone in last.rates then [last] else [])
  }

  /** A chain has no hole: a weight under any of its upper bounds is covered, in whatever order those
      bounds rise or fall. */
  lemma {:induction false} ChainCovers(slabs: seq<Slab>, top: nat, weight: real)
    requires Chained(slabs) && top < |slabs|
    requires 0.0 <= weight <= slabs[top].to
    ensures exists i | 0 <= i <= top :: Covers(slabs[i], weight)
  {
    assert Linked(slabs, top);
    if slabs[top].from <= weight {
      assert Covers(slabs[top], weight);
    } else {
      ChainCovers(slabs, top - 1, weight);
    }
  }

  /** Every slab of the parsed sheet sits in one of its sections. */
  lemma {:induction false} SlabHasSection(sections: seq<Section>, slab: Slab) returns (k: nat, i: nat)
    requires slab in AllSlabs(sections)
    ensures k < |sections| && i < |sections[k].slabs| && sections[k].slabs[i] == slab
  {
    var before, last := sections[..|sections| - 1], sections[|sections| - 1];
    if slab in last.slabs {
      k := |sections| - 1;
      i :| 0 <= i < |last.slabs| && last.slabs[i] == slab;
    } else {
      k, i := SlabHasSection(before, slab);
    }
  }

  lemma {:induction false} SectionSlabs(sections: seq<Section>, k: nat, i: nat)
    requires k < |sections| && i < |sections[k].slabs|
    ensures sections[k].slabs[i] in AllSlabs(sections)
  {
    if k < |sections| - 1 {
      SectionSlabs(sections[..|sections| - 1], k, i);
    }
  }

  /** For every sheet of every carrier: a zone priced in every slab of a shipment type has a rate for
      exactly the weights from zero up to that type's greatest printed upper bound. */
  lemma {:induction false} PricedZoneNeverMisses(config: Config, rows: seq<Row>, shipmentType: ShipmentType,
                                                 zone: string, weight: real)
    requires forall slab | slab in Run(config, INITIAL, rows).slabs && slab.shipmentType == shipmentType ::
               zone in slab.rates
    ensures var slabs := Run(config, INITIAL, rows).slabs;
            FindSlab(CardSlabs(slabs, shipmentType, zone), weight).Some? <==>
            0.0 <= weight && exists slab | slab in slabs :: slab.shipmentType == shipmentType && weight <= slab.to
  {
    var slabs, sections := Run(config, INITIAL, rows).slabs, Sections(config, rows);
    var card := CardSlabs(slabs, shipmentType, zone);
    SectionsChain(config, rows);
    if slab :| slab in slabs && slab.shipmentType == shipmentType && 0.0 <= weight <= slab.to {
      var k, top := SlabHasSection(sections, slab);
      var section := sections[k];
      assert WellSectioned(section);
      ChainCovers(section.slabs, top, weight);
      var i :| 0 <= i <= top && Covers(section.slabs[i], weight);
      SectionSlabs(sections, k, i);
      assert section.slabs[i] in card;
    }
    if slab :| slab in card && Covers(slab, weight) {
      var k, i := SlabHasSection(sections, slab);
      assert WellSectioned(sections[k]);
      StartsAtOrAboveZero(sections[k].slabs, i);
    }
  }

  lemma StartsAtOrAboveZero(slabs: seq<Slab>, i: nat)
    requires Chained(slabs) && i < |slabs|
    ensures 0.0 <= slabs[i].from
  {
    assert Linked(slabs, i);
    if i > 0 {
      assert Linked(slabs, i - 1);
    }
  }

  // ---------------------------------------------------------------------------------------------
  // Rising bounds: exactly one slab, save at a shared edge
  // ---------------------------------------------------------------------------------------------

  ghost predicate Rising(slabs: seq<Slab>) {
    forall i | 0 <= i < |slabs| :: slabs[i].from < slabs[i].to
  }

  lemma {:induction false} RisingSeparates(slabs: seq<Slab>, i: nat, j: nat)
    requires Chained(slabs) && Rising(slabs) && i < j < |slabs|
    ensures slabs[i].to <= slabs[j].from
    ensures i + 1 < j ==> slabs[i].to < slabs[j].from
    decreases j
  {
    assert Linked(slabs, j);
    if i + 1 < j {
      RisingSeparates(slabs, i, j - 1);
    }
  }

  /** Two slabs of a rising chain hold the same weight exactly when they are neighbours and the weight
      is their shared edge. */
  lemma {:induction false} TwoMatchOnlyAtEdge(slabs: seq<Slab>, i: nat, j: nat, weight: real)
    requires Chained(slabs) && Rising(slabs) && i < j < |slabs|
    ensures Covers(slabs[i], weight) && Covers(slabs[j], weight) <==> j == i + 1 && weight == slabs[i].to
  {
    RisingSeparates(slabs, i, j);
    assert Linked(slabs, j);
  }

  /** So the lookup is a function of the weight alone: it returns the lowest slab reaching the weight,
      the lower of the two at an edge. */
  lemma {:induction false} FindTakesLowest(slabs: seq<Slab>, i: nat, weight: real)
    requires Chained(slabs) && Rising(slabs) && i < |slabs|
    requires (if i == 0 then 0.0 <= weight else slabs[i].from < weight) && weight <= slabs[i].to
    ensures FindSlab(slabs, weight) == Some(slabs[i])
  {
    assert Linked(slabs, i);
    forall k | 0 <= k < i
      ensures !Covers(slabs[k], weight)
    {
      RisingSeparates(slabs, k, i);
    }
    FirstCover(slabs, i, weight);
  }

  lemma {:induction false} FirstCover(slabs: seq<Slab>, i: nat, weight: real)
    requires i < |slabs| && Covers(slabs[i], weight)
    requires forall k | 0 <= k < i :: !Covers(slabs[k], weight)
    ensures FindSlab(slabs, weight) == Some(slabs[i])
  {
    if i > 0 {
      FirstCover(slabs[1..], i - 1, weight);
    }
  }

  /** Every weight from zero to `top` finds a slab. */
  ghost predicate FindsAllUpTo(card: seq<Slab>, top: real) {
    forall weight: real | 0.0 <= weight <= top :: FindSlab(card, weight).Some?
  }

  /** The card of a zone that a rising tariff does not price in some slab misses the inside of that
      slab: such a tariff leaves no weight unpriced for a zone exactly when it prices the zone in
      every slab. */
  lemma {:induction false} GapFreeExactlyWhenAlwaysPriced(slabs: seq<Slab>, shipmentType: ShipmentType, zone: string)
    requires Chained(slabs) && Rising(slabs) && slabs != []
    requires forall slab | slab in slabs :: slab.shipmentType == shipmentType
    ensures FindsAllUpTo(CardSlabs(slabs, shipmentType, zone), EndOf(slabs)) <==>
            forall slab | slab in slabs :: zone in slab.rates
  {
    hide FindsAllUpTo, Chained, Rising;
    if i :| 0 <= i < |slabs| && zone !in slabs[i].rates {
      UnpricedSlabLeavesGap(slabs, shipmentType, zone, i);
    } else {
      CardKeepsAll(slabs, shipmentType, zone);
      ChainFindsAll(slabs);
    }
  }

  function Middle(slab: Slab): real {
    (slab.from + slab.to) / 2.0
  }

  lemma UnpricedMiddleMissed(slabs: seq<Slab>, shipmentType: ShipmentType, zone: string, i: nat)
    requires Chained(slabs) && Rising(slabs) && i < |slabs| && zone !in slabs[i].rates
    ensures forall slab | slab in CardSlabs(slabs, shipmentType, zone) :: !Covers(slab, Middle(slabs[i]))
  {
    var middle := Middle(slabs[i]);
    forall slab | slab in CardSlabs(slabs, shipmentType, zone)
      ensures !Covers(slab, middle)
    {
      var j :| 0 <= j < |slabs| && slabs[j] == slab;
      if j < i { RisingSeparates(slabs, j, i); }
      if i < j { RisingSeparates(slabs, i, j); }
    }
  }

  lemma UnpricedSlabLeavesGap(slabs: seq<Slab>, shipmentType: ShipmentType, zone: string, i: nat)
    requires Chained(slabs) && Rising(slabs) && i < |slabs| && zone !in slabs[i].rates
    ensures !FindsAllUpTo(CardSlabs(slabs, shipmentType, zone), EndOf(slabs))
  {
    var middle := Middle(slabs[i]);
    UnpricedMiddleMissed(slabs, shipmentType, zone, i);
    StartsAtOrAboveZero(slabs, i);
    if i < |slabs| - 1 { RisingSeparates(slabs, i, |slabs| - 1); }
    assert slabs[i].from < slabs[i].to <= EndOf(slabs);
    hide Chained, Rising, CardSlabs;
    assert FindSlab(CardSlabs(slabs, shipmentType, zone), middle).None?;
  }

  lemma {:induction false} ChainFindsAll(slabs: seq<Slab>)
    requires Chained(slabs) && slabs != []
    ensures FindsAllUpTo(slabs, EndOf(slabs))
  {
    forall weight: real | 0.0 <= weight <= EndOf(slabs)
      ensures FindSlab(slabs, weight).Some?
    {
      ChainCovers(slabs, |slabs| - 1, weight);
    }
  }

  /** A shipment type with a single section on the sheet: its card, for a zone priced throughout, is
      that section's chain, so the results above speak about the card the importer writes. */
  lemma {:induction false} SingleSectionCard(config: Config, rows: seq<Row>, k: nat, zone: string)
    requires var sections := Sections(config, rows);
             && k < |sections|
             && (forall j | 0 <= j < |sections| && j != k :: sections[j].shipmentType != sections[k].shipmentType)
             && forall slab | slab in sections[k].slabs :: zone in slab.rates
    ensures var section := Sections(config, rows)[k];
            && CardSlabs(Run(config, INITIAL, rows).slabs, section.shipmentType, zone) == section.slabs
            && Chained(section.slabs)
  {
    var sections := Sections(config, rows);
    SectionsChain(config, rows);
    assert WellSectioned(sections[k]);
    CardOfSections(sections, k, zone);
  }

  lemma {:induction false} CardOfSections(sections: seq<Section>, k: nat, zone: string)
    requires forall i | 0 <= i < |sections| :: WellSectioned(sections[i])
    requires k < |sections|
    requires forall j | 0 <= j < |sections| && j != k :: sections[j].shipmentType != sections[k].shipmentType
    requires forall slab | slab in sections[k].slabs :: zone in slab.rates
    ensures CardSlabs(AllSlabs(sections), sections[k].shipmentType, zone) == sections[k].slabs
  {
    hide Chained, CardSlabs;
    var before, last := sections[..|sections| - 1], sections[|sections| - 1];
    var t := sections[k].shipmentType;
    assert WellSectioned(last);
    CardOfConcat(AllSlabs(before), last.slabs, t, zone);
    if k == |sections| - 1 {
      CardKeepsAll(last.slabs, t, zone);
      OtherTypesOnly(before, t);
      CardKeepsNone(AllSlabs(before), t, zone);
    } else {
      CardKeepsNone(last.slabs, t, zone);
      CardOfSections(before, k, zone);
    }
  }

  lemma {:induction false} OtherTypesOnly(sections: seq<Section>, shipmentType: ShipmentType)
    requires forall i | 0 <= i < |sections| :: WellSectioned(sections[i]) && sections[i].shipmentType != shipmentType
    ensures forall slab | slab in AllSlabs(sections) :: slab.shipmentType != shipmentType
  {
    hide Chained;
    forall slab | slab in AllSlabs(sections)
      ensures slab.shipmentType != shipmentType
    {
      var j, i := SlabHasSection(sections, slab);
      assert WellSectioned(sections[j]);
    }
  }

  lemma {:induction false} CardOfConcat(a: seq<Slab>, b: seq<Slab>, shipmentType: ShipmentType, zone: string)
    ensures CardSlabs(a + b, shipmentType, zone) == CardSlabs(a, shipmentType, zone) + CardSlabs(b, shipmentType, zone)
  {
    if b == [] {
      assert a + b == a;
    } else {
      assert (a + b)[..|a + b| - 1] == a + b[..|b| - 1];
      CardOfConcat(a, b[..|b| - 1], shipmentType, zone);
    }
  }

  lemma CardKeepsAll(slabs: seq<Slab>, shipmentType: ShipmentType, zone: string)
    requires forall slab | slab in slabs :: slab.shipmentType == shipmentType && zone in slab.rates
    ensures CardSlabs(slabs, shipmentType, zone) == slabs
  {
  }

  lemma CardKeepsNone(slabs: seq<Slab>, shipmentType: ShipmentType, zone: string)
    requires forall slab | slab in slabs :: slab.shipmentType != shipmentType
    ensures CardSlabs(slabs, shipmentType, zone) == []
  {
  }
}
