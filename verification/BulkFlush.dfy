/** The batched writer: what it sends, what an interrupted write leaves behind, and what the database's
    foreign keys make of its order. */
module BulkFlush {
  import opened Text
  import opened BulkBook
  import opened InvoiceSeries

  const BATCH := 1000

  const CONCURRENCY := 6

  // ---------------------------------------------------------------------------------------------
  // Batches
  // ---------------------------------------------------------------------------------------------

  /** Batches sent together and awaited together. */
  datatype Group<T> = Group(batches: seq<seq<T>>)

  function Joined<T>(batches: seq<seq<T>>): seq<T> {
    if batches == [] then [] else Joined(batches[..|batches| - 1]) + batches[|batches| - 1]
  }

  function Sent<T>(groups: seq<Group<T>>): seq<T> {
    if groups == [] then [] else Sent(groups[..|groups| - 1]) + Joined(groups[|groups| - 1].batches)
  }

  ghost predicate Bounded<T>(groups: seq<Group<T>>) {
    forall g | g in groups ::
      && 1 <= |g.batches| <= 6
      && forall batch | batch in g.batches :: 1 <= |batch| <= 1000
  }

  lemma JoinedOfAppend<T>(batches: seq<seq<T>>, batch: seq<T>)
    ensures Joined(batches + [batch]) == Joined(batches) + batch
  {
    assert (batches + [batch])[..|batches|] == batches;
  }

  lemma SentOfAppend<T>(groups: seq<Group<T>>, g: Group<T>)
    ensures Sent(groups + [g]) == Sent(groups) + Joined(g.batches)
  {
    assert (groups + [g])[..|groups|] == groups;
  }

  lemma SliceJoins<T>(data: seq<T>, a: nat, b: nat, c: nat)
    requires a <= b <= c <= |data|
    ensures data[a..b] + data[b..c] == data[a..c]
  {
  }

  function Min(a: nat, b: nat): nat {
    if a < b then a else b
  }

  /** How many slices of a thousand, and of six thousand, cover so many rows. */
  function BatchCount(rows: nat): nat {
    (rows + BATCH - 1) / BATCH
  }

  function GroupCount(rows: nat): nat {
    (rows + BATCH * CONCURRENCY - 1) / (BATCH * CONCURRENCY)
  }

  function GroupEnd<T>(data: seq<T>, start: nat): nat {
    Min(start + BATCH * CONCURRENCY, |data|)
  }

  /** The batches of the group that starts at this row. */
  function BatchesAt<T>(data: seq<T>, start: nat): seq<seq<T>>
    requires start <= |data|
  {
    seq(BatchCount(GroupEnd(data, start) - start), b requires 0 <= b < BatchCount(GroupEnd(data, start) - start) =>
      data[start + b * BATCH..Min(start + b * BATCH + BATCH, |data|)])
  }

  /** The groups the writer makes of a buffer. */
  function Grouped<T>(data: seq<T>): seq<Group<T>> {
    seq(GroupCount(|data|), g requires 0 <= g < GroupCount(|data|) => Group(BatchesAt(data, g * (BATCH * CONCURRENCY))))
  }

  lemma BatchAt<T>(data: seq<T>, start: nat, b: nat)
    requires start <= |data| && b < |BatchesAt(data, start)|
    ensures start + b * BATCH < |data|
    ensures BatchesAt(data, start)[b] == data[start + b * BATCH..Min(start + b * BATCH + BATCH, |data|)]
    ensures BatchesAt(data, start)[..b + 1] == BatchesAt(data, start)[..b] + [BatchesAt(data, start)[b]]
  {
  }

  lemma NextBatchJoins<T>(data: seq<T>, start: nat, b: nat)
    requires start <= |data| && b < |BatchesAt(data, start)| && start + b * BATCH <= |data|
    requires Joined(BatchesAt(data, start)[..b]) == data[start..start + b * BATCH]
    ensures Joined(BatchesAt(data, start)[..b + 1]) == data[start..Min(start + b * BATCH + BATCH, |data|)]
  {
    hide Joined, BatchesAt;
    BatchAt(data, start, b);
    JoinedOfAppend(BatchesAt(data, start)[..b], BatchesAt(data, start)[b]);
    SliceJoins(data, start, start + b * BATCH, Min(start + b * BATCH + BATCH, |data|));
  }

  lemma NoBatchJoins<T>(data: seq<T>, start: nat)
    requires start <= |data|
    ensures Joined(BatchesAt(data, start)[..0]) == data[start..start]
  {
    hide BatchesAt;
  }

  lemma {:induction false} BatchesJoin<T>(data: seq<T>, start: nat, b: nat)
    requires start <= |data| && b <= |BatchesAt(data, start)|
    ensures Joined(BatchesAt(data, start)[..b]) == data[start..Min(start + b * BATCH, |data|)]
  {
    hide Joined, BatchesAt;
    if b == 0 {
      NoBatchJoins(data, start);
    } else {
      BatchesJoin(data, start, b - 1);
      BatchAt(data, start, b - 1);
      NextBatchJoins(data, start, b - 1);
    }
  }

  lemma BatchesCover<T>(data: seq<T>, start: nat)
    requires start < |data|
    ensures Joined(BatchesAt(data, start)) == data[start..GroupEnd(data, start)]
  {
    var batches := BatchesAt(data, start);
    BatchesJoin(data, start, |batches|);
    assert batches[..|batches|] == batches;
    hide Joined;
  }

  lemma BatchesBounded<T>(data: seq<T>, start: nat)
    requires start < |data|
    ensures 1 <= |BatchesAt(data, start)| <= CONCURRENCY
    ensures forall batch | batch in BatchesAt(data, start) :: 1 <= |batch| <= BATCH
  {
  }

  lemma GroupAt<T>(data: seq<T>, g: nat)
    requires g < GroupCount(|data|)
    ensures g * (BATCH * CONCURRENCY) < |data|
    ensures Grouped(data)[..g + 1] == Grouped(data)[..g] + [Group(BatchesAt(data, g * (BATCH * CONCURRENCY)))]
  {
    hide BatchesAt;
  }

  lemma {:induction false} GroupsJoin<T>(data: seq<T>, g: nat)
    requires g <= GroupCount(|data|)
    ensures g <= |Grouped(data)| && Sent(Grouped(data)[..g]) == data[..Min(g * (BATCH * CONCURRENCY), |data|)]
  {
    if g > 0 {
      GroupsJoin(data, g - 1);
      GroupAt(data, g - 1);
      BatchesCover(data, (g - 1) * (BATCH * CONCURRENCY));
      hide Sent, Joined, Grouped, BatchesAt;
      var start := (g - 1) * (BATCH * CONCURRENCY);
      SentOfAppend(Grouped(data)[..g - 1], Group(BatchesAt(data, start)));
      SliceJoins(data, 0, start, GroupEnd(data, start));
    }
  }

  /** The batches, in order, are the buffer, every row once; at most six of at most a thousand rows
      are in flight. */
  lemma GroupsAreBuffer<T>(data: seq<T>)
    ensures Sent(Grouped(data)) == data
    ensures Bounded(Grouped(data))
  {
    hide BatchesAt;
    var groups := Grouped(data);
    GroupsJoin(data, |groups|);
    assert groups[..|groups|] == groups;
    forall g | 0 <= g < |groups|
      ensures 1 <= |groups[g].batches| <= CONCURRENCY
      ensures forall batch | batch in groups[g].batches :: 1 <= |batch| <= BATCH
    {
      GroupAt(data, g);
      BatchesBounded(data, g * (BATCH * CONCURRENCY));
    }
    hide Sent, Grouped;
  }

  /** Every row has its place: the thousands before it fill whole batches, and six of those a group. */
  lemma RowIsAt<T>(data: seq<T>, i: nat)
    requires i < |data|
    ensures i / 6000 < |Grouped(data)|
    ensures var batches, b := Grouped(data)[i / 6000].batches, i % 6000 / 1000;
            b < |batches| && i % 1000 < |batches[b]| && batches[b][i % 1000] == data[i]
  {
    var start, b := i / 6000 * 6000, i % 6000 / 1000;
    assert i == start + b * 1000 + i % 1000;
    GroupAt(data, i / 6000);
    BatchAt(data, start, b);
  }

  /** One collection: the groups of its buffer, one after the other. */
  method FlushCollection<T>(data: seq<T>) returns (groups: seq<Group<T>>)
    ensures groups == Grouped(data)
    ensures Sent(groups) == data && Bounded(groups)
  {
    groups := [];
    var i := 0;
    while i < |data|
      invariant i < |data| + BATCH * CONCURRENCY && i % (BATCH * CONCURRENCY) == 0
      invariant |groups| == i / (BATCH * CONCURRENCY)
      invariant forall g | 0 <= g < |groups| :: groups[g] == Group(BatchesAt(data, g * (BATCH * CONCURRENCY)))
    {
      var end := if i + BATCH * CONCURRENCY < |data| then i + BATCH * CONCURRENCY else |data|;
      var batches := SliceBatches(data, i, end);
      groups := groups + [Group(batches)];
      i := i + BATCH * CONCURRENCY;
    }
    assert groups == Grouped(data);
    GroupsAreBuffer(data);
    hide Sent, Bounded, Grouped;
  }

  method SliceBatches<T>(data: seq<T>, start: nat, end: nat) returns (batches: seq<seq<T>>)
    requires start < end == GroupEnd(data, start)
    ensures batches == BatchesAt(data, start)
  {
    batches := [];
    var j := start;
    while j < end
      invariant start <= j < end + BATCH && (j - start) % BATCH == 0 && |batches| == (j - start) / BATCH
      invariant forall b | 0 <= b < |batches| ::
                  batches[b] == data[start + b * BATCH..Min(start + b * BATCH + BATCH, |data|)]
    {
      var stop := Min(j + BATCH, |data|);
      assert j == start + |batches| * BATCH;
      batches := batches + [data[j..stop]];
      j := j + BATCH;
    }
  }

  // ---------------------------------------------------------------------------------------------
  // An interrupted write
  // ---------------------------------------------------------------------------------------------

  function Surviving<T>(batches: seq<seq<T>>, kept: set<nat>): seq<seq<T>> {
    if batches == [] then []
    else Surviving(batches[..|batches| - 1], kept) + (if |batches| - 1 in kept then [batches[|batches| - 1]] else [])
  }

  /** What a crash leaves of a collection: the groups awaited so far, and of the group in flight any
      of its batches. */
  function Interrupted<T>(groups: seq<Group<T>>, awaited: nat, kept: set<nat>): seq<T> {
    if awaited >= |groups| then Sent(groups)
    else Sent(groups[..awaited]) + Joined(Surviving(groups[awaited].batches, kept))
  }

  /** A collection that fits one batch is written whole or not at all. */
  lemma SmallWriteIsAtomic<T>(data: seq<T>, awaited: nat, kept: set<nat>)
    requires |data| <= BATCH
    ensures Interrupted(Grouped(data), awaited, kept) == [] || Interrupted(Grouped(data), awaited, kept) == data
  {
    if data == [] {
      assert Grouped(data) == [];
    } else {
      assert data[0..|data|] == data;
      assert BatchesAt(data, 0) == [data];
      assert Grouped(data) == [Group(BatchesAt(data, 0))];
      OneBatch(data, kept);
    }
  }

  lemma OneBatch<T>(batch: seq<T>, kept: set<nat>)
    ensures var groups := [Group([batch])];
            Interrupted(groups, 0, kept) == (if 0 in kept then batch else []) && Sent(groups) == batch
  {
    var groups := [Group([batch])];
    SurvivingOfAppend([], batch, kept);
    JoinedOfAppend([], batch);
    SentOfAppend([], groups[0]);
    assert [] + [batch] == [batch] && [] + [groups[0]] == groups && groups[..0] == [];
    hide Surviving, Joined, Sent;
    NothingJoined<T>(kept);
  }

  lemma NothingJoined<T>(kept: set<nat>)
    ensures Joined<T>([]) == [] && Sent<T>([]) == [] && Surviving<T>([], kept) == []
  {
  }

  lemma {:induction false} JoinedOfConcat<T>(a: seq<seq<T>>, b: seq<seq<T>>)
    ensures Joined(a + b) == Joined(a) + Joined(b)
  {
    if b == [] {
      assert a + b == a;
    } else {
      hide Joined;
      var init, last := b[..|b| - 1], b[|b| - 1];
      assert b == init + [last] && a + b == (a + init) + [last];
      JoinedOfConcat(a, init);
      JoinedOfAppend(init, last);
      JoinedOfAppend(a + init, last);
    }
  }

  lemma {:induction false} SentOfConcat<T>(a: seq<Group<T>>, b: seq<Group<T>>)
    ensures Sent(a + b) == Sent(a) + Sent(b)
  {
    if b == [] {
      assert a + b == a;
    } else {
      hide Sent;
      var init, last := b[..|b| - 1], b[|b| - 1];
      assert b == init + [last] && a + b == (a + init) + [last];
      SentOfConcat(a, init);
      SentOfAppend(init, last);
      SentOfAppend(a + init, last);
    }
  }

  lemma SplitAt<T>(s: seq<T>, k: nat)
    requires k < |s|
    ensures s[..k + 1] == s[..k] + [s[k]]
    ensures s == s[..k + 1] + s[k + 1..]
  {
  }

  /** The rows before a group, the group's own and those after it. */
  lemma SentAround<T>(groups: seq<Group<T>>, g: nat)
    requires g < |groups|
    ensures Sent(groups[..g + 1]) == Sent(groups[..g]) + Joined(groups[g].batches)
    ensures Sent(groups) == Sent(groups[..g]) + Joined(groups[g].batches) + Sent(groups[g + 1..])
  {
    hide Sent, Joined;
    SplitAt(groups, g);
    SentOfAppend(groups[..g], groups[g]);
    SentOfConcat(groups[..g + 1], groups[g + 1..]);
  }

  lemma JoinedAround<T>(batches: seq<seq<T>>, b: nat)
    requires b < |batches|
    ensures Joined(batches) == Joined(batches[..b]) + batches[b] + Joined(batches[b + 1..])
  {
    hide Joined;
    SplitAt(batches, b);
    JoinedOfAppend(batches[..b], batches[b]);
    JoinedOfConcat(batches[..b + 1], batches[b + 1..]);
  }

  lemma {:induction false} OnlyKept<T>(batches: seq<seq<T>>, b: nat)
    ensures Joined(Surviving(batches, {b})) == if b < |batches| then batches[b] else []
  {
    if batches == [] {
      NothingJoined<T>({b});
    } else {
      hide Surviving, Joined;
      var init, last := batches[..|batches| - 1], batches[|batches| - 1];
      assert batches == init + [last];
      OnlyKept(init, b);
      SurvivingOfAppend(init, last, {b});
      if |init| == b {
        JoinedOfAppend(Surviving(init, {b}), last);
        assert [] + last == last;
      } else {
        assert Surviving(init, {b}) + [] == Surviving(init, {b});
      }
    }
  }

  /** A surviving row is one of a surviving batch. */
  lemma {:induction false} SurvivingRow<T>(batches: seq<seq<T>>, kept: set<nat>, x: T) returns (b: nat)
    requires x in Joined(Surviving(batches, kept))
    ensures b < |batches| && b in kept && x in batches[b]
  {
    var init, last := batches[..|batches| - 1], batches[|batches| - 1];
    assert batches == init + [last];
    SurvivingOfAppend(init, last, kept);
    JoinedOfAppend(Surviving(init, kept), last);
    if |init| in kept && x in last {
      b := |init|;
    } else {
      assert Surviving(init, kept) + [] == Surviving(init, kept);
      b := SurvivingRow(init, kept, x);
    }
  }

  lemma {:induction false} JoinedRow<T>(batches: seq<seq<T>>, x: T)
    ensures x in Joined(batches) <==> exists batch | batch in batches :: x in batch
  {
    if batches != [] {
      var init, last := batches[..|batches| - 1], batches[|batches| - 1];
      assert batches == init + [last];
      JoinedRow(init, x);
    }
  }

  lemma {:induction false} SurvivingIsPart<T>(batches: seq<seq<T>>, kept: set<nat>)
    ensures multiset(Joined(Surviving(batches, kept))) <= multiset(Joined(batches))
  {
    if batches != [] {
      var init, last := batches[..|batches| - 1], batches[|batches| - 1];
      assert batches == init + [last];
      SurvivingIsPart(init, kept);
      SurvivingOfAppend(init, last, kept);
      JoinedOfAppend(init, last);
      JoinedOfAppend(Surviving(init, kept), last);
      assert Surviving(init, kept) + [] == Surviving(init, kept);
    } else {
      NothingJoined<T>(kept);
    }
    hide Surviving, Joined;
  }

  /** Whatever an interrupted write left was in the buffer, no row more often than there. */
  lemma InterruptedIsPart<T>(groups: seq<Group<T>>, awaited: nat, kept: set<nat>)
    ensures multiset(Interrupted(groups, awaited, kept)) <= multiset(Sent(groups))
  {
    if awaited < |groups| {
      SentAround(groups, awaited);
      SurvivingIsPart(groups[awaited].batches, kept);
    }
    hide Sent, Joined, Surviving;
  }

  lemma SurvivingOfAppend<T>(batches: seq<seq<T>>, batch: seq<T>, kept: set<nat>)
    ensures Surviving(batches + [batch], kept) == Surviving(batches, kept) + if |batches| in kept then [batch] else []
  {
    assert (batches + [batch])[..|batches|] == batches;
  }

  // ---------------------------------------------------------------------------------------------
  // Foreign keys
  // ---------------------------------------------------------------------------------------------

  datatype Model = Customers | Quotes | Options | Requests | Orders | Pickups | Shipments | Numbers | Events | Invoices

  /** The position of a collection in the write order. */
  function Rank(m: Model): nat {
    match m
    case Customers => 0
    case Quotes => 1
    case Options => 2
    case Requests => 3
    case Orders => 4
    case Pickups => 5
    case Shipments => 6
    case Numbers => 7
    case Events => 8
    case Invoices => 9
  }

  lemma RanksFollow(m: Model)
    ensures [Customers, Quotes, Options, Requests, Orders, Pickups, Shipments, Numbers, Events, Invoices][Rank(m)] == m
  {
  }

  datatype Field = Owner | SelectedOption | OrderOfQuote | OrderOfRequest | Parent

  datatype Ref = Ref(field: Field, target: Model, id: Id)

  function OptionalRef(field: Field, target: Model, id: Option<Id>): set<Ref> {
    if id.Some? then {Ref(field, target, id.value)} else {}
  }

  function QuoteRefs(q: Quote): set<Ref> {
    {Ref(Owner, Customers, q.customer)} + OptionalRef(SelectedOption, Options, q.selectedOption) +
      OptionalRef(OrderOfQuote, Orders, q.order)
  }

  function RequestRefs(r: PickupRequest): set<Ref> {
    {Ref(Owner, Customers, r.customer), Ref(Parent, Quotes, r.quote)} + OptionalRef(OrderOfRequest, Orders, r.order)
  }

  /** Some row of the collection carries this reference. */
  ghost predicate Carries(b: Book, invoices: seq<Invoice>, m: Model, ref: Ref) {
    match m
    case Customers => false
    case Quotes => exists q | q in b.quotes :: ref in QuoteRefs(q)
    case Options => exists o | o in b.options :: ref == Ref(Parent, Quotes, o.quote)
    case Requests => exists r | r in b.requests :: ref in RequestRefs(r)
    case Orders => exists o | o in b.orders :: ref == Ref(Owner, Customers, o.customer)
    case Pickups => exists p | p in b.pickups :: ref in {Ref(Parent, Quotes, p.quote), Ref(Parent, Orders, p.order)}
    case Shipments => exists s | s in b.shipments :: ref == Ref(Parent, Orders, s.order)
    case Numbers => exists n | n in b.numbers :: ref == Ref(Parent, Shipments, n.shipment)
    case Events => exists e | e in b.events ::
        ref in {Ref(Parent, Shipments, e.shipment), Ref(Parent, Numbers, e.number)}
    case Invoices => exists i | i in invoices ::
        ref in {Ref(Parent, Orders, i.order), Ref(Owner, Customers, i.customer)}
  }

  ghost function Ids(b: Book, invoices: seq<Invoice>, m: Model): set<Id> {
    match m
    case Customers => CustomerIds(b)
    case Quotes => set q | q in b.quotes :: q.id
    case Options => set o | o in b.options :: o.id
    case Requests => set r | r in b.requests :: r.id
    case Orders => OrderIds(b)
    case Pickups => set p | p in b.pickups :: p.id
    case Shipments => set s | s in b.shipments :: s.id
    case Numbers => set n | n in b.numbers :: n.id
    case Events => set e | e in b.events :: e.id
    case Invoices => set i | i in invoices :: i.id
  }

  /** The row a reference names is buffered in this wave, or is a customer of an earlier one. */
  ghost predicate Buffered(b: Book, invoices: seq<Invoice>, earlier: set<Id>, ref: Ref) {
    ref.id in Ids(b, invoices, ref.target) || (ref.target == Customers && ref.id in earlier)
  }

  /** The wave's invoices are its pending ones. */
  ghost predicate InvoicesOf(b: Book, invoices: seq<Invoice>) {
    forall i | i in invoices :: exists p | p in b.pending :: p.order == i.order && p.customer == i.customer
  }

  /** Every reference of a coherent wave names a row of the wave or an earlier customer: after a whole
      flush none is left hanging. */
  lemma WholeFlushResolves(b: Book, invoices: seq<Invoice>, earlier: set<Id>, chains: seq<seq<TrackingEvent>>,
                           firstSequence: nat, next: Id, m: Model, ref: Ref)
    requires Coherent(b, earlier, chains, firstSequence, next) && InvoicesOf(b, invoices)
    requires Carries(b, invoices, m, ref)
    ensures Buffered(b, invoices, earlier, ref)
  {
    hide Coherent, InvoicesOf;
    if Rank(m) <= Rank(Requests) {
      QuoteSideResolves(b, invoices, earlier, chains, firstSequence, next, m, ref);
    } else {
      OrderSideResolves(b, invoices, earlier, chains, firstSequence, next, m, ref);
    }
  }

  lemma QuoteSideResolves(b: Book, invoices: seq<Invoice>, earlier: set<Id>, chains: seq<seq<TrackingEvent>>,
                          firstSequence: nat, next: Id, m: Model, ref: Ref)
    requires Coherent(b, earlier, chains, firstSequence, next) && Rank(m) <= Rank(Requests)
    requires Carries(b, invoices, m, ref)
    ensures Buffered(b, invoices, earlier, ref)
  {
    hide OrdersCoherent, InvoicesCoherent, IdsBelow, IdsApart, UniqueQuotes, PapersCoherent, OptionCoherent;
    hide QuoteCoherent, RequestCoherent, QuoteNames;
    var customers := earlier + CustomerIds(b);
    match m
    case Customers =>
    case Quotes =>
      var q :| q in b.quotes && ref in QuoteRefs(q);
      QuoteResolves(b, invoices, earlier, q, ref);
    case Options =>
    case Requests =>
      var r :| r in b.requests && ref in RequestRefs(r);
      RequestResolves(b, customers, r);
  }

  lemma OrderSideResolves(b: Book, invoices: seq<Invoice>, earlier: set<Id>, chains: seq<seq<TrackingEvent>>,
                          firstSequence: nat, next: Id, m: Model, ref: Ref)
    requires Coherent(b, earlier, chains, firstSequence, next) && InvoicesOf(b, invoices) && Rank(m) > Rank(Requests)
    requires Carries(b, invoices, m, ref)
    ensures Buffered(b, invoices, earlier, ref)
  {
    hide InvoicesCoherent, IdsBelow, IdsApart, UniqueQuotes, PapersCoherent, OptionCoherent, RequestCoherent;
    hide InvoicesOf, ChainCoherent, Flatten;
    var customers := earlier + CustomerIds(b);
    match m
    case Orders =>
      var i :| 0 <= i < |b.orders| && ref == Ref(Owner, Customers, b.orders[i].customer);
      assert OrderCoherent(b, customers, chains, firstSequence, i);
    case Pickups =>
      var p :| p in b.pickups && ref in {Ref(Parent, Quotes, p.quote), Ref(Parent, Orders, p.order)};
      PickupResolves(b, customers, p);
    case Shipments =>
      var i :| 0 <= i < |b.shipments| && ref == Ref(Parent, Orders, b.shipments[i].order);
      assert OrderCoherent(b, customers, chains, firstSequence, i) && b.orders[i] in b.orders;
    case Numbers =>
      var i :| 0 <= i < |b.numbers| && ref == Ref(Parent, Shipments, b.numbers[i].shipment);
      assert OrderCoherent(b, customers, chains, firstSequence, i) && b.shipments[i] in b.shipments;
    case Events =>
      var e :| e in b.events && ref in {Ref(Parent, Shipments, e.shipment), Ref(Parent, Numbers, e.number)};
      EventResolves(b, customers, chains, firstSequence, e);
    case Invoices =>
      var i :| i in invoices && ref in {Ref(Parent, Orders, i.order), Ref(Owner, Customers, i.customer)};
      InvoiceResolves(b, customers, chains, firstSequence, invoices, i);
  }

  lemma QuoteResolves(b: Book, invoices: seq<Invoice>, earlier: set<Id>, q: Quote, ref: Ref)
    requires QuoteCoherent(b, earlier + CustomerIds(b), q) && ref in QuoteRefs(q)
    ensures Buffered(b, invoices, earlier, ref)
  {
    if ref.field == SelectedOption {
      assert RateOption(ref.id, q.id) in b.options;
    }
  }

  lemma RequestResolves(b: Book, customers: set<Id>, r: PickupRequest)
    requires RequestCoherent(b, customers, r)
    requires forall q | q in b.quotes :: QuoteCoherent(b, customers, q)
    ensures r.customer in customers && r.quote in QuoteIds(b) && (r.order.Some? ==> r.order.value in OrderIds(b))
  {
    assert QuoteNames(b, r.quote, r.order);
    var q :| q in b.quotes && q.id == r.quote && q.order == r.order;
    assert QuoteCoherent(b, customers, q);
  }

  lemma PickupResolves(b: Book, customers: set<Id>, p: Pickup)
    requires QuoteNames(b, p.quote, Some(p.order))
    requires forall q | q in b.quotes :: QuoteCoherent(b, customers, q)
    ensures p.quote in QuoteIds(b) && p.order in OrderIds(b)
  {
    var q :| q in b.quotes && q.id == p.quote && q.order == Some(p.order);
    assert QuoteCoherent(b, customers, q);
  }

  lemma {:induction false} EventHasChain(chains: seq<seq<TrackingEvent>>, e: TrackingEvent) returns (i: nat, k: nat)
    requires e in Flatten(chains)
    ensures i < |chains| && k < |chains[i]| && chains[i][k] == e
  {
    var last := chains[|chains| - 1];
    if e in last {
      i := |chains| - 1;
      k :| 0 <= k < |last| && last[k] == e;
    } else {
      i, k := EventHasChain(chains[..|chains| - 1], e);
    }
  }

  lemma EventResolves(b: Book, customers: set<Id>, chains: seq<seq<TrackingEvent>>, firstSequence: nat,
                      e: TrackingEvent)
    requires OrdersCoherent(b, customers, chains, firstSequence) && e in b.events
    ensures exists s | s in b.shipments :: s.id == e.shipment
    ensures exists n | n in b.numbers :: n.id == e.number
  {
    var i, k := EventHasChain(chains, e);
    assert OrderCoherent(b, customers, chains, firstSequence, i);
    assert ChainCoherent(b.shipments[i], b.numbers[i], chains[i]);
    assert b.shipments[i] in b.shipments && b.numbers[i] in b.numbers;
  }

  lemma InvoiceResolves(b: Book, customers: set<Id>, chains: seq<seq<TrackingEvent>>, firstSequence: nat,
                        invoices: seq<Invoice>, i: Invoice)
    requires OrdersCoherent(b, customers, chains, firstSequence) && InvoicesCoherent(b)
    requires InvoicesOf(b, invoices) && i in invoices
    ensures i.order in OrderIds(b) && i.customer in customers
  {
    hide ChainCoherent, Flatten;
    var p :| p in b.pending && p.order == i.order && p.customer == i.customer;
    assert Billable(b, p);
    var k :| 0 <= k < |b.orders| && b.orders[k].id == p.order && b.orders[k].customer == p.customer;
    assert OrderCoherent(b, customers, chains, firstSequence, k);
  }

  /** Which references the three exceptions below are about: each selected option and each order that a
      quote names, and each order that a request names. */
  lemma ForwardFieldsExactly(b: Book, invoices: seq<Invoice>, id: Id)
    ensures Carries(b, invoices, Quotes, Ref(SelectedOption, Options, id)) <==>
            exists q | q in b.quotes :: q.selectedOption == Some(id)
    ensures Carries(b, invoices, Quotes, Ref(OrderOfQuote, Orders, id)) <==>
            exists q | q in b.quotes :: q.order == Some(id)
    ensures Carries(b, invoices, Requests, Ref(OrderOfRequest, Orders, id)) <==>
            exists r | r in b.requests :: r.order == Some(id)
  {
    assert forall q :: Ref(SelectedOption, Options, id) in QuoteRefs(q) <==> q.selectedOption == Some(id);
    assert forall q :: Ref(OrderOfQuote, Orders, id) in QuoteRefs(q) <==> q.order == Some(id);
    assert forall r :: Ref(OrderOfRequest, Orders, id) in RequestRefs(r) <==> r.order == Some(id);
  }

  /** The write order puts parents first, with three exceptions. */
  lemma OnlyThreeFieldsPointForward(b: Book, invoices: seq<Invoice>, m: Model, ref: Ref)
    requires Carries(b, invoices, m, ref)
    ensures Rank(ref.target) != Rank(m)
    ensures Rank(ref.target) > Rank(m) <==> ref.field in {SelectedOption, OrderOfQuote, OrderOfRequest}
  {
  }

  /** How far a flush got: so many collections wholly written, and some rows of the next. */
  datatype Progress = Progress(done: nat, partial: set<Id>)

  ghost function StoredIds(b: Book, invoices: seq<Invoice>, p: Progress, m: Model): set<Id> {
    if Rank(m) < p.done then Ids(b, invoices, m)
    else if Rank(m) == p.done then p.partial * Ids(b, invoices, m)
    else {}
  }

  ghost predicate Dangles(b: Book, invoices: seq<Invoice>, earlier: set<Id>, p: Progress, ref: Ref) {
    ref.id !in StoredIds(b, invoices, p, ref.target) && !(ref.target == Customers && ref.id in earlier)
  }

  /** Wherever a flush of a coherent wave is interrupted, a stored row's reference can only hang if it
      is a quote's selected option or order or a pickup request's order; each of these does hang as
      long as the collection it points to has not been started. */
  lemma InterruptedFlushDangles(b: Book, invoices: seq<Invoice>, earlier: set<Id>, chains: seq<seq<TrackingEvent>>,
                                firstSequence: nat, next: Id, p: Progress, m: Model, ref: Ref)
    requires Coherent(b, earlier, chains, firstSequence, next) && InvoicesOf(b, invoices)
    requires Rank(m) <= p.done && Carries(b, invoices, m, ref)
    ensures Dangles(b, invoices, earlier, p, ref) ==>
              ref.field in {SelectedOption, OrderOfQuote, OrderOfRequest} && p.done <= Rank(Orders)
    ensures Rank(ref.target) > p.done ==> Dangles(b, invoices, earlier, p, ref)
  {
    hide Coherent, InvoicesOf, Ids;
    OnlyThreeFieldsPointForward(b, invoices, m, ref);
    WholeFlushResolves(b, invoices, earlier, chains, firstSequence, next, m, ref);
    ForwardTargets(b, invoices, m, ref);
  }

  lemma ForwardTargets(b: Book, invoices: seq<Invoice>, m: Model, ref: Ref)
    requires Carries(b, invoices, m, ref)
    ensures ref.field in {SelectedOption, OrderOfQuote, OrderOfRequest} ==> ref.target in {Options, Orders}
    ensures ref.target == Customers ==> Rank(ref.target) < Rank(m)
  {
  }

  /** With every foreign key checked as each batch is inserted, a collection is accepted when its
      references name rows already written. */
  ghost predicate FlushAccepted(b: Book, invoices: seq<Invoice>, earlier: set<Id>) {
    forall m, ref | Carries(b, invoices, m, ref) ::
        !Dangles(b, invoices, earlier, Progress(Rank(m), Ids(b, invoices, m)), ref)
  }

  /** A database that checks its foreign keys as the migrations declare them, not deferred, refuses the
      flush of every wave in which a quote was committed to: the flush is accepted exactly when no
      quote names an option or an order. */
  lemma AcceptedExactlyWhenNothingCommitted(b: Book, invoices: seq<Invoice>, earlier: set<Id>,
                                            chains: seq<seq<TrackingEvent>>, firstSequence: nat, next: Id)
    requires Coherent(b, earlier, chains, firstSequence, next) && InvoicesOf(b, invoices)
    ensures FlushAccepted(b, invoices, earlier) <==> !Committed(b)
  {
    hide Coherent, InvoicesOf, Ids;
    if q :| q in b.quotes && (q.selectedOption.Some? || q.order.Some?) {
      var ref :=
        if q.selectedOption.Some? then Ref(SelectedOption, Options, q.selectedOption.value)
        else Ref(OrderOfQuote, Orders, q.order.value);
      assert ref in QuoteRefs(q);
      assert Carries(b, invoices, Quotes, ref);
      assert Dangles(b, invoices, earlier, Progress(Rank(Quotes), Ids(b, invoices, Quotes)), ref);
    } else {
      forall m, ref | Carries(b, invoices, m, ref)
        ensures !Dangles(b, invoices, earlier, Progress(Rank(m), Ids(b, invoices, m)), ref)
      {
        UncommittedPointsBack(b, invoices, earlier, chains, firstSequence, next, m, ref);
        WholeFlushResolves(b, invoices, earlier, chains, firstSequence, next, m, ref);
      }
    }
  }

  lemma UncommittedPointsBack(b: Book, invoices: seq<Invoice>, earlier: set<Id>, chains: seq<seq<TrackingEvent>>,
                              firstSequence: nat, next: Id, m: Model, ref: Ref)
    requires Coherent(b, earlier, chains, firstSequence, next)
    requires !Committed(b)
    requires Carries(b, invoices, m, ref)
    ensures Rank(ref.target) < Rank(m)
  {
    hide OrdersCoherent, InvoicesCoherent, IdsBelow, IdsApart, UniqueQuotes, PapersCoherent, OptionCoherent;
    hide QuoteCoherent, OrderNamed;
    OnlyThreeFieldsPointForward(b, invoices, m, ref);
    if m == Requests {
      var r :| r in b.requests && ref in RequestRefs(r);
      assert RequestCoherent(b, earlier + CustomerIds(b), r);
      assert QuoteNames(b, r.quote, r.order);
    }
  }
}
