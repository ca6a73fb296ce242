/** The shipment-book importer: which customer a consignor is, which rows become orders, and why the
    import can be run again after any interruption. */
module Workbook {
  import opened Text
  import opened Runs

  /** A customer's identifier is its position in the table, to which rows are only ever added. */
  type Id = nat

  datatype Row = Row(
    vendor: string,
    trkNumber: string,
    awb: string,
    consignor: string,
    consignorPhone: string,
    consignorAddress: string)

  datatype Customer = Customer(name: string, phone: string, address: Option<string>)

  datatype Order = Order(customer: Id, reference: string, provider: string)

  const PLACEHOLDER := "NO-PHONE-"

  // ---------------------------------------------------------------------------------------------
  // Cells
  // ---------------------------------------------------------------------------------------------

  /** "N/A", "-" and the like mean "not filled in". */
  function Clean(value: string): string {
    var text := Trim(value);
    if Lower(text) in {"", "n/a", "na", "-", "nil"} then "" else text
  }

  /** A cell means nothing when it is blank or one of four printed words; else it is its trimmed text. */
  lemma CleanExactly(value: string)
    ensures Clean(value) ==
            var text, words := Trim(value), ["n/a", "na", "-", "nil"];
            if text == "" || (exists i | 0 <= i < 4 :: Lower(text) == words[i]) then "" else text
  {
    var text, blanks := Lower(Trim(value)), ["n/a", "na", "-", "nil"];
    assert text == blanks[0] || text == blanks[1] || text == blanks[2] || text == blanks[3]
           <==> exists i | 0 <= i < 4 :: text == blanks[i];
    hide Trim;
  }

  lemma CleanIsTrimmed(value: string)
    ensures Trimmed(Clean(value))
  {
    TrimIsTrimmed(value);
  }

  /** Names read through `Clean` are the kind the settling below relies on. */
  lemma {:induction false} CleanSheetHasCleanNames(rows: seq<Row>, cells: seq<string>)
    requires |cells| == |rows| && forall i | 0 <= i < |rows| :: rows[i].consignor == Clean(cells[i])
    ensures CleanNames(Consignors(rows))
  {
    if rows != [] {
      var n := |rows| - 1;
      CleanSheetHasCleanNames(rows[..n], cells[..n]);
      CleanIsTrimmed(cells[n]);
      TrimmedIsFixed(Clean(cells[n]));
    }
    hide Clean, Trim;
  }

  /** A sender's number, its digits only: ten of them get the country code, twelve that have it a plus. */
  function IndianPhone(raw: string): string {
    if |raw| == 10 then "+91" + raw
    else if |raw| == 12 && "91" <= raw then "+" + raw
    else raw
  }

  /** A mobile printed with and without its country code comes to one phone, two different mobiles to
      two, and none reads like a placeholder. */
  lemma IndianPhoneUnifies(mobile: string, other: string)
    requires |mobile| == 10 && |other| == 10
    requires (forall c | c in mobile :: IsDigit(c)) && forall c | c in other :: IsDigit(c)
    ensures IndianPhone("91" + mobile) == IndianPhone(mobile)
    ensures IndianPhone(mobile) == IndianPhone(other) <==> mobile == other
    ensures IndianPhone(mobile) == "+91" + mobile
  {
    assert "+" + ("91" + mobile) == "+91" + mobile;
    assert ("+91" + mobile)[3..] == mobile && ("+91" + other)[3..] == other;
  }

  /** Any other number is kept as it is written. */
  lemma OtherNumbersStay(raw: string)
    requires |raw| != 10 && !(|raw| == 12 && raw[0] == '9' && raw[1] == '1')
    ensures IndianPhone(raw) == raw
  {
    if "91" <= raw {
      assert raw[0] == "91"[0] && raw[1] == "91"[1];
    }
  }

  lemma DigitsAreDialable(raw: string)
    requires forall c | c in raw :: IsDigit(c)
    ensures !(PLACEHOLDER <= IndianPhone(raw))
  {
    if raw != "" {
      assert raw[0] in raw;
      assert IndianPhone(raw)[0] == '+' || IndianPhone(raw)[0] == raw[0];
    }
  }

  predicate IsAlphanumeric(c: char) {
    IsLower(c) || IsDigit(c)
  }

  /** Runs of anything but lower-case letters and digits become one dash, with none at either end. */
  function SlugOf(text: string): string {
    Written(text, IsAlphanumeric, '-')
  }

  function Slug(name: string, lower: string -> string): string {
    SlugOf(lower(Trim(name)))
  }

  ghost predicate SlugLetters(s: string) {
    forall i | 0 <= i < |s| :: 'a' <= s[i] <= 'z' || '0' <= s[i] <= '9'
  }

  ghost predicate NoSlugLetters(s: string) {
    forall i | 0 <= i < |s| :: !('a' <= s[i] <= 'z' || '0' <= s[i] <= '9')
  }

  /** A slug keeps its letters and digits and writes what stands between two of them as one dash. */
  lemma SlugExactly(a: string, run: string, b: string)
    requires run != "" && NoSlugLetters(run)
    requires (a == "" || SlugLetters([a[|a| - 1]])) && (b == "" || SlugLetters([b[0]]))
    ensures SlugLetters(a) ==> SlugOf(a) == a
    ensures SlugOf(a + run + b) == SlugOf(a) + (if a == "" || b == "" then "" else "-") + SlugOf(b)
  {
    assert a != "" ==> [a[|a| - 1]][0] == a[|a| - 1];
    assert b != "" ==> [b[0]][0] == b[0];
    assert NoneKept(run, IsAlphanumeric);
    RunsWritten(a, run, b, IsAlphanumeric, '-');
    if SlugLetters(a) {
      assert AllKept(a, IsAlphanumeric);
      WordWritten(a, IsAlphanumeric, '-');
    }
    hide Written;
  }

  // ---------------------------------------------------------------------------------------------
  // Consignors
  // ---------------------------------------------------------------------------------------------

  /** The letter-case functions of the platform. */
  datatype Cases = Cases(upper: string -> string, lower: string -> string)

  function Consignors(rows: seq<Row>): seq<string> {
    if rows == [] then []
    else
      var rest, name := Consignors(rows[..|rows| - 1]), rows[|rows| - 1].consignor;
      if name == "" || name in rest then rest else rest + [name]
  }

  /** The first phone printed beside the name, or "". */
  function PhoneFor(rows: seq<Row>, name: string): string {
    if rows == [] then ""
    else if rows[0].consignor == name && rows[0].consignorPhone != "" then rows[0].consignorPhone
    else PhoneFor(rows[1..], name)
  }

  function AddressFor(rows: seq<Row>, name: string): Option<string> {
    if rows == [] then None
    else if rows[0].consignor == name && rows[0].consignorAddress != "" then Some(rows[0].consignorAddress)
    else AddressFor(rows[1..], name)
  }

  /** It is the phone of the first row of that very consignor that has one. */
  lemma {:induction false} PhoneForExactly(rows: seq<Row>, name: string, phone: string)
    ensures PhoneFor(rows, name) == "" <==>
            forall k | 0 <= k < |rows| :: rows[k].consignor != name || rows[k].consignorPhone == ""
    ensures phone != "" ==>
              (PhoneFor(rows, name) == phone <==> exists k | 0 <= k < |rows| ::
                 && rows[k].consignor == name && rows[k].consignorPhone == phone
                 && forall j | 0 <= j < k :: rows[j].consignor != name || rows[j].consignorPhone == "")
  {
    if rows != [] {
      var tail := rows[1..];
      PhoneForExactly(tail, name, phone);
      FirstRowSplits(rows, (r: Row) => r.consignor == name && r.consignorPhone == phone,
                     (r: Row) => r.consignor != name || r.consignorPhone == "");
    }
    hide PhoneFor;
  }

  /** A first row with a property, no row before it failing another: the first one or a later one. */
  lemma FirstRowSplits(rows: seq<Row>, hit: Row -> bool, passed: Row -> bool)
    requires rows != []
    ensures (exists k | 0 <= k < |rows| :: hit(rows[k]) && forall j | 0 <= j < k :: passed(rows[j])) <==>
            || hit(rows[0])
            || (passed(rows[0]) && exists k | 0 <= k < |rows| - 1 ::
                 hit(rows[1..][k]) && forall j | 0 <= j < k :: passed(rows[1..][j]))
    ensures (forall k | 0 <= k < |rows| :: passed(rows[k])) <==>
            passed(rows[0]) && forall k | 0 <= k < |rows| - 1 :: passed(rows[1..][k])
  {
    var tail := rows[1..];
    assert forall k | 0 <= k < |tail| :: tail[k] == rows[k + 1];
    if k :| 0 <= k < |rows| && hit(rows[k]) && forall j | 0 <= j < k :: passed(rows[j]) {
      if k > 0 {
        assert hit(tail[k - 1]) && forall j | 0 <= j < k - 1 :: passed(tail[j]);
      }
    }
    if passed(rows[0]) {
      if k :| 0 <= k < |tail| && hit(tail[k]) && forall j | 0 <= j < k :: passed(tail[j]) {
        forall j | 0 <= j < k + 1
          ensures passed(rows[j])
        {
          assert j > 0 ==> tail[j - 1] == rows[j];
        }
        assert hit(rows[k + 1]);
      }
    }
    forall k | 0 <= k < |rows| && passed(rows[0]) && forall i | 0 <= i < |tail| :: passed(tail[i])
      ensures passed(rows[k])
    {
      assert k > 0 ==> tail[k - 1] == rows[k];
    }
  }

  /** And so is the address. */
  lemma {:induction false} AddressForExactly(rows: seq<Row>, name: string, address: string)
    ensures AddressFor(rows, name).None? <==>
            forall k | 0 <= k < |rows| :: rows[k].consignor != name || rows[k].consignorAddress == ""
    ensures address != "" ==>
              (AddressFor(rows, name) == Some(address) <==> exists k | 0 <= k < |rows| ::
                 && rows[k].consignor == name && rows[k].consignorAddress == address
                 && forall j | 0 <= j < k :: rows[j].consignor != name || rows[j].consignorAddress == "")
    ensures AddressFor(rows, name) != Some("")
  {
    if rows != [] {
      var tail := rows[1..];
      AddressForExactly(tail, name, address);
      FirstRowSplits(rows, (r: Row) => r.consignor == name && r.consignorAddress == address,
                     (r: Row) => r.consignor != name || r.consignorAddress == "");
    }
    hide AddressFor;
  }

  /** The consignors are the names printed, each once, in the order they first appear. */
  lemma {:induction false} ConsignorsExactly(rows: seq<Row>, k: nat)
    requires k <= |rows|
    ensures forall name :: name in Consignors(rows) <==> name != "" && exists r | r in rows :: r.consignor == name
    ensures forall i, j | 0 <= i < j < |Consignors(rows)| :: Consignors(rows)[i] != Consignors(rows)[j]
    ensures Consignors(rows[..k]) <= Consignors(rows)
  {
    if rows != [] {
      var init, last := rows[..|rows| - 1], rows[|rows| - 1];
      assert rows == init + [last];
      ConsignorsExactly(init, if k < |rows| then k else 0);
      if k < |rows| {
        assert init[..k] == rows[..k];
      } else {
        assert rows[..k] == rows;
      }
    }
  }

  function ByPhone(customers: seq<Customer>): map<string, Id> {
    if customers == [] then map[]
    else
      var init, last := customers[..|customers| - 1], customers[|customers| - 1];
      if last.phone == "" then ByPhone(init) else ByPhone(init)[last.phone := |init|]
  }

  function ByName(cases: Cases, customers: seq<Customer>): map<string, Id> {
    if customers == [] then map[]
    else
      var init, last := customers[..|customers| - 1], customers[|customers| - 1];
      ByName(cases, init)[cases.upper(Trim(last.name)) := |init|]
  }

  /** The customer table with the two look-up maps; `failed` once an insertion broke the unique phone. */
  datatype Book = Book(customers: seq<Customer>, byPhone: map<string, Id>, byName: map<string, Id>, failed: bool)

  function Opened(cases: Cases, customers: seq<Customer>): Book {
    Book(customers, ByPhone(customers), ByName(cases, customers), false)
  }

  predicate PhoneTaken(customers: seq<Customer>, phone: string) {
    exists c | c in customers :: c.phone == phone
  }

  function PhoneOf(cases: Cases, rows: seq<Row>, name: string): string {
    var phone := PhoneFor(rows, name);
    if phone != "" then phone else PLACEHOLDER + Slug(name, cases.lower)
  }

  function Settle(cases: Cases, rows: seq<Row>, b: Book, name: string): Book {
    var key, printed, phone := cases.upper(name), PhoneFor(rows, name), PhoneOf(cases, rows, name);
    if b.failed || key in b.byName then b
    else if printed != "" && printed in b.byPhone then b.(byName := b.byName[key := b.byPhone[printed]])
    else if PhoneTaken(b.customers, phone) then b.(failed := true)
    else
      Book(b.customers + [Customer(name, phone, AddressFor(rows, name))],
           b.byPhone[phone := |b.customers|], b.byName[key := |b.customers|], false)
  }

  function SettleAll(cases: Cases, rows: seq<Row>, names: seq<string>, b: Book): Book {
    if names == [] then b
    else Settle(cases, rows, SettleAll(cases, rows, names[..|names| - 1], b), names[|names| - 1])
  }

  method ResolveCustomers(cases: Cases, rows: seq<Row>, existing: seq<Customer>)
    returns (customers: seq<Customer>, customerByName: map<string, Id>, failed: bool)
    ensures var b := SettleAll(cases, rows, Consignors(rows), Opened(cases, existing));
            customers == b.customers && customerByName == b.byName && failed == b.failed
  {
    hide Slug, AddressFor, PhoneFor, ByPhone, ByName;
    var consignors := Consignors(rows);
    customers, failed := existing, false;
    var customerByPhone: map<string, Id> := ByPhone(existing);
    customerByName := ByName(cases, existing);
    for i := 0 to |consignors|
      invariant Book(customers, customerByPhone, customerByName, failed) ==
                SettleAll(cases, rows, consignors[..i], Opened(cases, existing))
      invariant !failed
    {
      assert consignors[..i + 1][..i] == consignors[..i];
      var name := consignors[i];
      var key := cases.upper(name);
      if key in customerByName {
        continue;
      }
      var printed := PhoneFor(rows, name);
      if printed != "" && printed in customerByPhone {
        customerByName := customerByName[key := customerByPhone[printed]];
        continue;
      }
      var phone := PhoneOf(cases, rows, name);
      if PhoneTaken(customers, phone) {
        failed := true;
        FailureStays(cases, rows, consignors, i + 1, Opened(cases, existing));
        return;
      }
      customerByName := customerByName[key := |customers|];
      customerByPhone := customerByPhone[phone := |customers|];
      customers := customers + [Customer(name, phone, AddressFor(rows, name))];
    }
    assert consignors[..|consignors|] == consignors;
  }

  lemma {:induction false} FailureStays(cases: Cases, rows: seq<Row>, names: seq<string>, k: nat, b: Book)
    requires k <= |names| && SettleAll(cases, rows, names[..k], b).failed
    ensures SettleAll(cases, rows, names, b) == SettleAll(cases, rows, names[..k], b)
  {
    if k < |names| {
      assert names[..|names| - 1][..k] == names[..k];
      FailureStays(cases, rows, names[..|names| - 1], k, b);
    } else {
      assert names[..k] == names;
    }
  }

  // ---------------------------------------------------------------------------------------------
  // No two customers share a phone
  // ---------------------------------------------------------------------------------------------

  ghost predicate UniquePhones(customers: seq<Customer>) {
    forall i, j | 0 <= i < j < |customers| :: customers[i].phone != customers[j].phone
  }

  /** `m` says no less than `n`. */
  ghost predicate Extends(m: map<string, Id>, n: map<string, Id>) {
    forall k | k in n :: k in m && m[k] == n[k]
  }

  /** What every step keeps: the phone map is the table's, and the name map agrees with it. */
  ghost predicate InStep(cases: Cases, b: Book) {
    && UniquePhones(b.customers)
    && b.byPhone == ByPhone(b.customers)
    && Extends(b.byName, ByName(cases, b.customers))
  }

  /** Names are kept trimmed, so a created customer is found again under the key it was filed under. */
  ghost predicate CleanNames(names: seq<string>) {
    forall name | name in names :: Trim(name) == name
  }

  lemma {:induction false} ByPhoneHolds(customers: seq<Customer>, phone: string)
    ensures phone in ByPhone(customers) <==> phone != "" && PhoneTaken(customers, phone)
    ensures phone in ByPhone(customers) ==>
              ByPhone(customers)[phone] < |customers| && customers[ByPhone(customers)[phone]].phone == phone
  {
    if customers != [] {
      var init, last := customers[..|customers| - 1], customers[|customers| - 1];
      assert customers == init + [last];
      ByPhoneHolds(init, phone);
    }
  }

  /** A name's customer is the last of the table whose trimmed name has that key. */
  lemma {:induction false} ByNameHolds(cases: Cases, customers: seq<Customer>, key: string, id: Id)
    ensures key in ByName(cases, customers) <==> exists c | c in customers :: cases.upper(Trim(c.name)) == key
    ensures key in ByName(cases, customers) && ByName(cases, customers)[key] == id <==>
            && id < |customers| && cases.upper(Trim(customers[id].name)) == key
            && forall j | id < j < |customers| :: cases.upper(Trim(customers[j].name)) != key
  {
    hide Trim;
    if customers != [] {
      var init, last := customers[..|customers| - 1], customers[|customers| - 1];
      assert customers == init + [last];
      ByNameHolds(cases, init, key, id);
    }
  }

  lemma ByPhoneOfAppend(customers: seq<Customer>, c: Customer)
    ensures ByPhone(customers + [c]) ==
            if c.phone == "" then ByPhone(customers) else ByPhone(customers)[c.phone := |customers|]
  {
    assert (customers + [c])[..|customers|] == customers;
  }

  lemma ByNameOfAppend(cases: Cases, customers: seq<Customer>, c: Customer)
    ensures ByName(cases, customers + [c]) == ByName(cases, customers)[cases.upper(Trim(c.name)) := |customers|]
  {
    assert (customers + [c])[..|customers|] == customers;
  }

  lemma OpenedInStep(cases: Cases, customers: seq<Customer>)
    requires UniquePhones(customers)
    ensures InStep(cases, Opened(cases, customers))
  {
  }

  /** How one step changes the book: not at all, one more name, or one more customer and its name. */
  lemma SettleCases(cases: Cases, rows: seq<Row>, b: Book, name: string)
    requires InStep(cases, b) && Trim(name) == name && PhoneOf(cases, rows, name) != ""
    ensures var b', key := Settle(cases, rows, b, name), cases.upper(name);
            && InStep(cases, b')
            && b.customers <= b'.customers && Extends(b'.byName, b.byName) && Extends(b'.byPhone, b.byPhone)
            && (!b'.failed ==> key in b'.byName)
            && (key !in b.byName && !b'.failed && |b'.customers| > |b.customers| ==> key in ByName(cases, b'.customers))
            && (key !in b.byName && !b'.failed && |b'.customers| == |b.customers| ==>
                  && PhoneFor(rows, name) in b.byPhone && b'.byName[key] == b.byPhone[PhoneFor(rows, name)])
  {
    hide AddressFor, Slug, PhoneFor, Trim;
    var b' := Settle(cases, rows, b, name);
    if |b'.customers| > |b.customers| {
      var phone := PhoneOf(cases, rows, name);
      var c := Customer(name, phone, AddressFor(rows, name));
      ByPhoneHolds(b.customers, phone);
      ByPhoneOfAppend(b.customers, c);
      ByNameOfAppend(cases, b.customers, c);
    }
    hide ByPhone, ByName;
  }

  /** A placeholder is never blank, so every new customer has a phone. */
  lemma PhoneNeverBlank(cases: Cases, rows: seq<Row>, name: string)
    ensures PhoneOf(cases, rows, name) != ""
  {
    assert PhoneFor(rows, name) == "" ==> PhoneOf(cases, rows, name)[0] == 'N';
  }

  lemma {:induction false} RunInStep(cases: Cases, rows: seq<Row>, names: seq<string>, b: Book)
    requires InStep(cases, b) && CleanNames(names)
    ensures InStep(cases, SettleAll(cases, rows, names, b))
  {
    hide InStep, Settle;
    if names != [] {
      var init, last := names[..|names| - 1], names[|names| - 1];
      RunInStep(cases, rows, init, b);
      PhoneNeverBlank(cases, rows, last);
      SettleCases(cases, rows, SettleAll(cases, rows, init, b), last);
    }
  }

  /** Nothing an earlier step settled is taken back by a later one. */
  lemma {:induction false} RunGrows(cases: Cases, rows: seq<Row>, names: seq<string>, k: nat, b: Book)
    requires InStep(cases, b) && CleanNames(names) && k <= |names|
    ensures var part, whole := SettleAll(cases, rows, names[..k], b), SettleAll(cases, rows, names, b);
            && part.customers <= whole.customers
            && Extends(whole.byName, part.byName) && Extends(whole.byPhone, part.byPhone)
  {
    hide InStep, Settle;
    if k < |names| {
      var init, last := names[..|names| - 1], names[|names| - 1];
      assert init[..k] == names[..k];
      RunGrows(cases, rows, init, k, b);
      RunInStep(cases, rows, init, b);
      PhoneNeverBlank(cases, rows, last);
      SettleCases(cases, rows, SettleAll(cases, rows, init, b), last);
    } else {
      assert names[..k] == names;
    }
  }

  /** A second import, as far as the names the first had settled by `part`: it has added nobody, and
      knows every name the first knew by then, each under the customer the first ended up with. */
  ghost predicate Replayed(cases: Cases, first: Book, part: Book, again: Book) {
    && again.customers == first.customers && again.byPhone == first.byPhone && !again.failed
    && Extends(first.byName, again.byName)
    && part.byName.Keys <= again.byName.Keys
    && ByName(cases, first.customers).Keys <= again.byName.Keys
  }

  /** `part` is a stage on the way to `first`. */
  ghost predicate Leads(cases: Cases, part: Book, first: Book) {
    && InStep(cases, part) && InStep(cases, first) && !part.failed && !first.failed
    && part.customers <= first.customers
    && Extends(first.byName, part.byName) && Extends(first.byPhone, part.byPhone)
  }

  lemma PartLeads(cases: Cases, rows: seq<Row>, names: seq<string>, n: nat, b: Book)
    requires InStep(cases, b) && CleanNames(names) && n <= |names|
    requires !SettleAll(cases, rows, names, b).failed
    ensures Leads(cases, SettleAll(cases, rows, names[..n], b), SettleAll(cases, rows, names, b))
  {
    hide InStep, SettleAll;
    RunInStep(cases, rows, names, b);
    RunInStep(cases, rows, names[..n], b);
    RunGrows(cases, rows, names, n, b);
    if SettleAll(cases, rows, names[..n], b).failed {
      FailureStays(cases, rows, names, n, b);
    }
  }

  lemma {:induction false} Replay(cases: Cases, rows: seq<Row>, names: seq<string>, n: nat, existing: seq<Customer>)
    requires UniquePhones(existing) && CleanNames(names) && n <= |names|
    requires !SettleAll(cases, rows, names, Opened(cases, existing)).failed
    ensures var first := SettleAll(cases, rows, names, Opened(cases, existing));
            Replayed(cases, first,
                     SettleAll(cases, rows, names[..n], Opened(cases, existing)),
                     SettleAll(cases, rows, names[..n], Opened(cases, first.customers)))
    decreases n
  {
    hide Replayed, Leads, InStep, Opened, Settle, SettleAll;
    var first := SettleAll(cases, rows, names, Opened(cases, existing));
    OpenedInStep(cases, existing);
    PartLeads(cases, rows, names, n, Opened(cases, existing));
    SettleNext(cases, rows, names, n, Opened(cases, existing));
    SettleNext(cases, rows, names, n, Opened(cases, first.customers));
    if n == 0 {
      ReplayStart(cases, existing, first);
    } else {
      Replay(cases, rows, names, n - 1, existing);
      PartLeads(cases, rows, names, n - 1, Opened(cases, existing));
      ReplayStep(cases, rows, names[n - 1],
                 SettleAll(cases, rows, names[..n - 1], Opened(cases, existing)),
                 SettleAll(cases, rows, names[..n - 1], Opened(cases, first.customers)), first);
    }
  }

  lemma SettleNext(cases: Cases, rows: seq<Row>, names: seq<string>, n: nat, b: Book)
    requires n <= |names|
    ensures SettleAll(cases, rows, names[..n], b) ==
            if n == 0 then b else Settle(cases, rows, SettleAll(cases, rows, names[..n - 1], b), names[n - 1])
  {
    if n > 0 {
      assert names[..n][..n - 1] == names[..n - 1];
    }
    hide Settle;
  }

  lemma ReplayStart(cases: Cases, existing: seq<Customer>, first: Book)
    requires Leads(cases, Opened(cases, existing), first)
    ensures Replayed(cases, first, Opened(cases, existing), Opened(cases, first.customers))
  {
    NamesGrow(cases, existing, first.customers);
    hide ByPhone, ByName;
  }

  lemma {:induction false} NamesGrow(cases: Cases, some: seq<Customer>, all: seq<Customer>)
    requires some <= all
    ensures ByName(cases, some).Keys <= ByName(cases, all).Keys
  {
    if |some| < |all| {
      NamesGrow(cases, some, all[..|all| - 1]);
    } else {
      assert some == all;
    }
  }

  /** A name the second import does not know was, the first time, filed under a shared phone; it is
      again, since a name filed under its own customer would be known from the table. */
  lemma ReplayStep(cases: Cases, rows: seq<Row>, name: string, part: Book, again: Book, first: Book)
    requires Trim(name) == name
    requires Leads(cases, part, first) && Leads(cases, Settle(cases, rows, part, name), first)
    requires Replayed(cases, first, part, again)
    ensures Replayed(cases, first, Settle(cases, rows, part, name), Settle(cases, rows, again, name))
  {
    hide InStep, ByPhone, ByName, PhoneFor, PhoneOf, AddressFor;
    PhoneNeverBlank(cases, rows, name);
    SettleCases(cases, rows, part, name);
    NamesGrow(cases, Settle(cases, rows, part, name).customers, first.customers);
  }

  lemma {:induction false} SettleAllSplit(cases: Cases, rows: seq<Row>, names: seq<string>, k: nat, b: Book)
    requires k <= |names|
    ensures SettleAll(cases, rows, names, b) ==
            SettleAll(cases, rows, names[k..], SettleAll(cases, rows, names[..k], b))
  {
    if k < |names| {
      var init := names[..|names| - 1];
      assert init[..k] == names[..k] && init[k..] == names[k..][..|names| - k - 1];
      assert names[k..][|names| - k - 1] == names[|names| - 1];
      SettleAllSplit(cases, rows, init, k, b);
    } else {
      assert names[..k] == names && names[k..] == [];
    }
  }

  /** Stop the import after any number of names and run it again from the customers stored so far: it
      ends in the same customers, the same maps and the same success or failure as a run never
      interrupted. With every name processed, this says a second run creates nobody. */
  lemma ResumeSettles(cases: Cases, rows: seq<Row>, names: seq<string>, k: nat, existing: seq<Customer>)
    requires UniquePhones(existing) && CleanNames(names) && k <= |names|
    requires !SettleAll(cases, rows, names[..k], Opened(cases, existing)).failed
    ensures var stored := SettleAll(cases, rows, names[..k], Opened(cases, existing)).customers;
            SettleAll(cases, rows, names, Opened(cases, stored)) ==
              SettleAll(cases, rows, names, Opened(cases, existing))
  {
    var first := SettleAll(cases, rows, names[..k], Opened(cases, existing));
    var again := SettleAll(cases, rows, names[..k], Opened(cases, first.customers));
    assert names[..k][..k] == names[..k];
    Replay(cases, rows, names[..k], k, existing);
    assert again.byName == first.byName;
    SettleAllSplit(cases, rows, names, k, Opened(cases, existing));
    SettleAllSplit(cases, rows, names, k, Opened(cases, first.customers));
  }

  // ---------------------------------------------------------------------------------------------
  // When the import fails
  // ---------------------------------------------------------------------------------------------

  /** The name is new to the table, the first under its key, and has no phone on the sheet. */
  ghost predicate NewAndPhoneless(cases: Cases, rows: seq<Row>, names: seq<string>, existing: seq<Customer>, i: nat)
    requires i < |names|
  {
    && cases.upper(names[i]) !in ByName(cases, existing)
    && (forall j | 0 <= j < i :: cases.upper(names[j]) != cases.upper(names[i]))
    && PhoneFor(rows, names[i]) == ""
  }

  ghost predicate Clashes(cases: Cases, rows: seq<Row>, names: seq<string>, existing: seq<Customer>, i: nat)
    requires i < |names|
  {
    && NewAndPhoneless(cases, rows, names, existing, i)
    && (|| PhoneTaken(existing, PhoneOf(cases, rows, names[i]))
        || TakenByNew(cases, rows, names, existing, i, PhoneOf(cases, rows, names[i])))
  }

  /** Printed phones are digits, perhaps after a plus, so none reads like a placeholder. */
  ghost predicate DialablePhones(rows: seq<Row>) {
    forall r | r in rows :: !(PLACEHOLDER <= r.consignorPhone)
  }

  lemma {:induction false} PhoneIsPrinted(rows: seq<Row>, name: string)
    ensures PhoneFor(rows, name) == "" || exists r | r in rows :: r.consignorPhone == PhoneFor(rows, name)
  {
    if rows != [] {
      if rows[0].consignor == name && rows[0].consignorPhone != "" {
        assert rows[0] in rows;
      } else {
        PhoneIsPrinted(rows[1..], name);
      }
    }
  }

  /** One of the first `n` names is new, phoneless and comes down to this placeholder. */
  ghost predicate TakenByNew(cases: Cases, rows: seq<Row>, names: seq<string>, existing: seq<Customer>, n: nat,
                             placeholder: string)
    requires n <= |names|
  {
    exists j | 0 <= j < n ::
        NewAndPhoneless(cases, rows, names, existing, j) && PhoneOf(cases, rows, names[j]) == placeholder
  }

  ghost function After(cases: Cases, rows: seq<Row>, names: seq<string>, existing: seq<Customer>, n: nat): Book
    requires n <= |names|
  {
    SettleAll(cases, rows, names[..n], Opened(cases, existing))
  }

  lemma AfterNext(cases: Cases, rows: seq<Row>, names: seq<string>, existing: seq<Customer>, n: nat)
    requires n < |names|
    ensures After(cases, rows, names, existing, 0) == Opened(cases, existing)
    ensures After(cases, rows, names, existing, n + 1) ==
            Settle(cases, rows, After(cases, rows, names, existing, n), names[n])
  {
    assert names[..n + 1][..n] == names[..n];
    hide Settle, Opened;
  }

  /** While nothing has failed, the known keys are the table's and the processed names'. */
  lemma {:induction false} KnownSoFar(cases: Cases, rows: seq<Row>, names: seq<string>, existing: seq<Customer>, n: nat,
                                      key: string)
    requires n <= |names| && !After(cases, rows, names, existing, n).failed
    ensures key in After(cases, rows, names, existing, n).byName <==>
            key in ByName(cases, existing) || exists j | 0 <= j < n :: cases.upper(names[j]) == key
  {
    if n > 0 {
      AfterNext(cases, rows, names, existing, n - 1);
      KnownSoFar(cases, rows, names, existing, n - 1, key);
      SettleKnows(cases, rows, After(cases, rows, names, existing, n - 1), names[n - 1]);
      hide After, Settle;
    }
  }

  lemma SettleKnows(cases: Cases, rows: seq<Row>, before: Book, name: string)
    requires !Settle(cases, rows, before, name).failed
    ensures Settle(cases, rows, before, name).byName.Keys == before.byName.Keys + {cases.upper(name)}
  {
  }

  /** And the placeholders in use are the table's and those of the new phoneless names so far. */
  lemma {:induction false} TakenSoFar(cases: Cases, rows: seq<Row>, names: seq<string>, existing: seq<Customer>, n: nat,
                                      placeholder: string)
    requires DialablePhones(rows) && PLACEHOLDER <= placeholder
    requires n <= |names| && !After(cases, rows, names, existing, n).failed
    ensures PhoneTaken(After(cases, rows, names, existing, n).customers, placeholder) <==>
            PhoneTaken(existing, placeholder) || TakenByNew(cases, rows, names, existing, n, placeholder)
  {
    if n == 0 {
      assert names[..0] == [];
    } else {
      AfterNext(cases, rows, names, existing, n - 1);
      TakenSoFar(cases, rows, names, existing, n - 1, placeholder);
      NextIsNew(cases, rows, names, existing, n - 1);
      RunStep(cases, rows, After(cases, rows, names, existing, n - 1), names[n - 1], placeholder);
      TakenByNext(cases, rows, names, existing, n - 1, placeholder);
    }
    hide ByName, ByPhone, Slug, PhoneFor, Settle, PhoneTaken, PhoneOf, NewAndPhoneless, TakenByNew;
  }

  lemma TakenByNext(cases: Cases, rows: seq<Row>, names: seq<string>, existing: seq<Customer>, n: nat,
                    placeholder: string)
    requires n < |names|
    ensures TakenByNew(cases, rows, names, existing, n + 1, placeholder) <==>
            || TakenByNew(cases, rows, names, existing, n, placeholder)
            || (NewAndPhoneless(cases, rows, names, existing, n) && PhoneOf(cases, rows, names[n]) == placeholder)
  {
    hide NewAndPhoneless, PhoneOf;
  }

  lemma NextIsNew(cases: Cases, rows: seq<Row>, names: seq<string>, existing: seq<Customer>, n: nat)
    requires n < |names| && !After(cases, rows, names, existing, n).failed
    ensures && cases.upper(names[n]) !in After(cases, rows, names, existing, n).byName
            && PhoneFor(rows, names[n]) == "" <==>
            NewAndPhoneless(cases, rows, names, existing, n)
  {
    KnownSoFar(cases, rows, names, existing, n, cases.upper(names[n]));
    hide ByName, After;
  }

  lemma RunStep(cases: Cases, rows: seq<Row>, before: Book, name: string, placeholder: string)
    requires !Settle(cases, rows, before, name).failed
    requires PLACEHOLDER <= placeholder && DialablePhones(rows)
    ensures var after, key := Settle(cases, rows, before, name), cases.upper(name);
            && after.byName.Keys == before.byName.Keys + {key}
            && (PhoneTaken(after.customers, placeholder) <==>
                  || PhoneTaken(before.customers, placeholder)
                  || (key !in before.byName && PhoneFor(rows, name) == "" && PhoneOf(cases, rows, name) == placeholder))
  {
    PhoneIsPrinted(rows, name);
    var after := Settle(cases, rows, before, name);
    if |after.customers| > |before.customers| {
      assert after.customers[|before.customers|] in after.customers;
    }
  }

  /** The import fails exactly when two new consignors without a phone come down to the same slug, or
      one comes down to a placeholder already stored. */
  lemma FailsExactlyOnClash(cases: Cases, rows: seq<Row>, names: seq<string>, existing: seq<Customer>)
    requires UniquePhones(existing) && CleanNames(names) && DialablePhones(rows)
    ensures SettleAll(cases, rows, names, Opened(cases, existing)).failed <==>
            exists i | 0 <= i < |names| :: Clashes(cases, rows, names, existing, i)
  {
    FailedByNow(cases, rows, names, existing, |names|);
    assert names[..|names|] == names;
    hide Clashes, SettleAll, Opened;
  }

  lemma {:induction false} FailedByNow(cases: Cases, rows: seq<Row>, names: seq<string>, existing: seq<Customer>,
                                       n: nat)
    requires UniquePhones(existing) && CleanNames(names) && DialablePhones(rows) && n <= |names|
    ensures After(cases, rows, names, existing, n).failed <==>
            exists i | 0 <= i < n :: Clashes(cases, rows, names, existing, i)
  {
    hide Clashes, After, Settle;
    if n == 0 {
      NothingFailed(cases, rows, names, existing);
    } else {
      FailedByNow(cases, rows, names, existing, n - 1);
      AfterNext(cases, rows, names, existing, n - 1);
      FailureSettles(cases, rows, After(cases, rows, names, existing, n - 1), names[n - 1]);
      if !After(cases, rows, names, existing, n - 1).failed {
        FailsNextOnClash(cases, rows, names, existing, n - 1);
      }
    }
  }

  lemma NothingFailed(cases: Cases, rows: seq<Row>, names: seq<string>, existing: seq<Customer>)
    ensures !After(cases, rows, names, existing, 0).failed
  {
    assert names[..0] == [];
  }

  lemma FailureSettles(cases: Cases, rows: seq<Row>, b: Book, name: string)
    ensures b.failed ==> Settle(cases, rows, b, name) == b
  {
  }

  lemma FailsNextOnClash(cases: Cases, rows: seq<Row>, names: seq<string>, existing: seq<Customer>, n: nat)
    requires UniquePhones(existing) && CleanNames(names) && DialablePhones(rows) && n < |names|
    requires !After(cases, rows, names, existing, n).failed
    ensures Settle(cases, rows, After(cases, rows, names, existing, n), names[n]).failed <==>
            Clashes(cases, rows, names, existing, n)
  {
    OpenedInStep(cases, existing);
    RunInStep(cases, rows, names[..n], Opened(cases, existing));
    FailsOnTakenPlaceholder(cases, rows, After(cases, rows, names, existing, n), names[n]);
    NextIsNew(cases, rows, names, existing, n);
    if PhoneFor(rows, names[n]) == "" {
      TakenSoFar(cases, rows, names, existing, n, PhoneOf(cases, rows, names[n]));
    }
    hide InStep, ByName, ByPhone, AddressFor, Slug, Settle, PhoneTaken, After;
  }

  lemma FailsOnTakenPlaceholder(cases: Cases, rows: seq<Row>, b: Book, name: string)
    requires InStep(cases, b) && !b.failed
    ensures Settle(cases, rows, b, name).failed <==>
            cases.upper(name) !in b.byName && PhoneFor(rows, name) == ""
              && PhoneTaken(b.customers, PhoneOf(cases, rows, name))
  {
    ByPhoneHolds(b.customers, PhoneFor(rows, name));
    hide ByPhone, ByName, AddressFor, Slug, PhoneFor;
  }

  // ---------------------------------------------------------------------------------------------
  // Whose customer a consignor becomes
  // ---------------------------------------------------------------------------------------------

  /** The run over a sheet, seen from one of its names: a name the table knows keeps its customer. A new
      one ends under a customer with the first phone printed beside that very name and, when none is, under
      one with the placeholder of its own slug. */
  lemma FiledRight(cases: Cases, rows: seq<Row>, names: seq<string>, existing: seq<Customer>, i: nat)
    requires UniquePhones(existing) && CleanNames(names) && i < |names|
    requires !SettleAll(cases, rows, names, Opened(cases, existing)).failed
    requires forall j | 0 <= j < i :: cases.upper(names[j]) != cases.upper(names[i])
    ensures var b, key := SettleAll(cases, rows, names, Opened(cases, existing)), cases.upper(names[i]);
            && key in b.byName
            && (key in ByName(cases, existing) ==> b.byName[key] == ByName(cases, existing)[key])
            && (key !in ByName(cases, existing) ==>
                  && b.byName[key] < |b.customers|
                  && b.customers[b.byName[key]].phone ==
                       if PhoneFor(rows, names[i]) != "" then PhoneFor(rows, names[i])
                       else "NO-PHONE-" + SlugOf(cases.lower(Trim(names[i]))))
  {
    hide SettleAll, Settle, InStep, ByName, ByPhone, PhoneFor, SlugOf, Trim;
    var start := Opened(cases, existing);
    OpenedInStep(cases, existing);
    PartLeads(cases, rows, names, i, start);
    PartLeads(cases, rows, names, i + 1, start);
    KnownSoFar(cases, rows, names, existing, i, cases.upper(names[i]));
    RunGrows(cases, rows, names, 0, start);
    assert names[..0] == [];
    SettleNext(cases, rows, names, 0, start);
    SettleNext(cases, rows, names, i + 1, start);
    SettleFiles(cases, rows, SettleAll(cases, rows, names[..i], start), names[i]);
  }

  lemma SettleFiles(cases: Cases, rows: seq<Row>, b: Book, name: string)
    requires InStep(cases, b) && !Settle(cases, rows, b, name).failed
    ensures var after, key := Settle(cases, rows, b, name), cases.upper(name);
            && key in after.byName
            && (key !in b.byName ==>
                  && after.byName[key] < |after.customers|
                  && after.customers[after.byName[key]].phone == PhoneOf(cases, rows, name))
  {
    ByPhoneHolds(b.customers, PhoneFor(rows, name));
    hide PhoneFor, ByName, ByPhone, Slug, AddressFor;
  }

  /** And a customer the run adds is a consignor of the sheet, with its own phone and address, and the
      one that consignor is filed under. */
  lemma {:induction false} AddedAreConsignors(cases: Cases, rows: seq<Row>, names: seq<string>, b: Book, id: Id)
    requires InStep(cases, b) && CleanNames(names)
    ensures var after := SettleAll(cases, rows, names, b);
            && b.customers <= after.customers
            && (|b.customers| <= id < |after.customers| ==>
                  exists name | name in names ::
                    && after.customers[id] == Customer(name, PhoneOf(cases, rows, name), AddressFor(rows, name))
                    && cases.upper(name) in after.byName && after.byName[cases.upper(name)] == id)
  {
    hide InStep, AddressFor, PhoneOf, ByName, ByPhone;
    if names != [] {
      var init, last := names[..|names| - 1], names[|names| - 1];
      assert names == init + [last];
      AddedAreConsignors(cases, rows, init, b, id);
      RunInStep(cases, rows, init, b);
      PhoneNeverBlank(cases, rows, last);
      SettleCases(cases, rows, SettleAll(cases, rows, init, b), last);
    }
  }

  // ---------------------------------------------------------------------------------------------
  // Orders
  // ---------------------------------------------------------------------------------------------

  function VendorOf(row: Row): string {
    if row.vendor == "" then "ICL" else row.vendor
  }

  function ReferenceOf(row: Row): string {
    if row.trkNumber == "" then row.awb else row.trkNumber
  }

  predicate Present(orders: seq<Order>, reference: string, provider: string) {
    exists o | o in orders :: o.reference == reference && o.provider == provider
  }

  datatype Progress = Progress(orders: seq<Order>, imported: nat, skipped: nat)

  function ImportRow(cases: Cases, byName: map<string, Id>, p: Progress, row: Row): Progress {
    var key := cases.upper(row.consignor);
    if Present(p.orders, ReferenceOf(row), VendorOf(row)) || key !in byName then p.(skipped := p.skipped + 1)
    else Progress(p.orders + [Order(byName[key], ReferenceOf(row), VendorOf(row))], p.imported + 1, p.skipped)
  }

  function ImportRows(cases: Cases, byName: map<string, Id>, orders: seq<Order>, rows: seq<Row>): Progress {
    if rows == [] then Progress(orders, 0, 0)
    else ImportRow(cases, byName, ImportRows(cases, byName, orders, rows[..|rows| - 1]), rows[|rows| - 1])
  }

  method ImportOrders(cases: Cases, customerByName: map<string, Id>, stored: seq<Order>, rows: seq<Row>)
    returns (orders: seq<Order>, imported: nat, skipped: nat)
    ensures Progress(orders, imported, skipped) == ImportRows(cases, customerByName, stored, rows)
    ensures imported + skipped == |rows| && imported == |orders| - |stored|
  {
    orders, imported, skipped := stored, 0, 0;
    for i := 0 to |rows|
      invariant Progress(orders, imported, skipped) == ImportRows(cases, customerByName, stored, rows[..i])
      invariant imported + skipped == i && imported == |orders| - |stored|
    {
      assert rows[..i + 1][..i] == rows[..i];
      var row := rows[i];
      var key := cases.upper(row.consignor);
      if Present(orders, ReferenceOf(row), VendorOf(row)) {
        skipped := skipped + 1;
        continue;
      }
      if key !in customerByName {
        skipped := skipped + 1;
        continue;
      }
      orders := orders + [Order(customerByName[key], ReferenceOf(row), VendorOf(row))];
      imported := imported + 1;
    }
    assert rows[..|rows|] == rows;
  }

  /** A pair is present in the end exactly when it was stored before or some row with it has a
      customer. A row's pair is its tracking number, or else its bill, with its vendor, or else ICL. */
  lemma {:induction false} PresentExactlyWhen(cases: Cases, byName: map<string, Id>, orders: seq<Order>, rows: seq<Row>,
                                              reference: string, provider: string)
    ensures (exists o | o in ImportRows(cases, byName, orders, rows).orders ::
               o.reference == reference && o.provider == provider) <==>
            || (exists o | o in orders :: o.reference == reference && o.provider == provider)
            || exists r | r in rows ::
                && reference == (if r.trkNumber != "" then r.trkNumber else r.awb)
                && provider == (if r.vendor != "" then r.vendor else "ICL")
                && cases.upper(r.consignor) in byName
  {
    if rows != [] {
      var init, last := rows[..|rows| - 1], rows[|rows| - 1];
      assert rows == init + [last];
      PresentExactlyWhen(cases, byName, orders, init, reference, provider);
      var before, after := ImportRows(cases, byName, orders, init), ImportRows(cases, byName, orders, rows);
      if |after.orders| > |before.orders| {
        assert after.orders == before.orders + [after.orders[|before.orders|]];
        assert after.orders[|before.orders|] in after.orders;
      }
    }
  }

  /** The customer of an imported order is that of the consignor of a row, the first with its pair that
      has one. */
  lemma {:induction false} OrderIsFor(cases: Cases, byName: map<string, Id>, orders: seq<Order>, rows: seq<Row>,
                                      n: nat)
    requires |orders| <= n < |ImportRows(cases, byName, orders, rows).orders|
    ensures var o := ImportRows(cases, byName, orders, rows).orders[n];
            exists k | 0 <= k < |rows| ::
              && cases.upper(rows[k].consignor) in byName && o.customer == byName[cases.upper(rows[k].consignor)]
              && o.reference == (if rows[k].trkNumber != "" then rows[k].trkNumber else rows[k].awb)
              && o.provider == (if rows[k].vendor != "" then rows[k].vendor else "ICL")
              && forall j | 0 <= j < k && cases.upper(rows[j].consignor) in byName ::
                   || o.reference != (if rows[j].trkNumber != "" then rows[j].trkNumber else rows[j].awb)
                   || o.provider != (if rows[j].vendor != "" then rows[j].vendor else "ICL")
  {
    hide ImportRow;
    var init, last := rows[..|rows| - 1], rows[|rows| - 1];
    assert forall j | 0 <= j < |init| :: rows[j] == init[j];
    var before, o := ImportRows(cases, byName, orders, init), ImportRows(cases, byName, orders, rows).orders[n];
    RowAdds(cases, byName, before, last);
    if n < |before.orders| {
      OrderIsFor(cases, byName, orders, init, n);
    } else {
      NotBefore(cases, byName, orders, init, o);
      assert rows[|init|] == last;
    }
  }

  lemma RowAdds(cases: Cases, byName: map<string, Id>, p: Progress, row: Row)
    ensures var after, key := ImportRow(cases, byName, p, row), cases.upper(row.consignor);
            && p.orders <= after.orders && |after.orders| <= |p.orders| + 1
            && (|after.orders| > |p.orders| ==>
                  && key in byName && !Present(p.orders, ReferenceOf(row), VendorOf(row))
                  && after.orders[|p.orders|] == Order(byName[key], ReferenceOf(row), VendorOf(row)))
  {
  }

  lemma NotBefore(cases: Cases, byName: map<string, Id>, orders: seq<Order>, rows: seq<Row>, o: Order)
    requires !Present(ImportRows(cases, byName, orders, rows).orders, o.reference, o.provider)
    ensures forall j | 0 <= j < |rows| && cases.upper(rows[j].consignor) in byName ::
              || o.reference != (if rows[j].trkNumber != "" then rows[j].trkNumber else rows[j].awb)
              || o.provider != (if rows[j].vendor != "" then rows[j].vendor else "ICL")
  {
    hide ImportRows;
    PresentExactlyWhen(cases, byName, orders, rows, o.reference, o.provider);
    assert forall j | 0 <= j < |rows| :: rows[j] in rows;
  }

  /** No pair is imported twice, and what was stored stays as it was. */
  lemma {:induction false} ImportedOnce(cases: Cases, byName: map<string, Id>, orders: seq<Order>, rows: seq<Row>)
    ensures var after := ImportRows(cases, byName, orders, rows).orders;
            && orders <= after
            && forall i, j | 0 <= i < j < |after| && |orders| <= j ::
                 after[i].reference != after[j].reference || after[i].provider != after[j].provider
  {
    if rows != [] {
      var init := rows[..|rows| - 1];
      ImportedOnce(cases, byName, orders, init);
      var before := ImportRows(cases, byName, orders, init).orders;
      assert forall i | 0 <= i < |before| :: before[i] in before;
    }
  }

  /** Rows already gone through are skipped, so an import interrupted after any row and run again ends
      with the same orders; with every row gone through, the second run imports nothing. */
  lemma {:induction false} ResumeOrders(cases: Cases, byName: map<string, Id>, orders: seq<Order>, rows: seq<Row>,
                                        k: nat, n: nat)
    requires k <= |rows| && n <= |rows|
    ensures var stored := ImportRows(cases, byName, orders, rows[..k]).orders;
            var again := ImportRows(cases, byName, stored, rows[..n]);
            && (n <= k ==> again == Progress(stored, 0, n))
            && (n >= k ==> again.orders == ImportRows(cases, byName, orders, rows[..n]).orders)
    decreases n
  {
    if n > 0 {
      assert rows[..n][..n - 1] == rows[..n - 1];
      ResumeOrders(cases, byName, orders, rows, k, n - 1);
      if n <= k {
        var row := rows[n - 1];
        PresentExactlyWhen(cases, byName, orders, rows[..k], ReferenceOf(row), VendorOf(row));
        assert rows[..k][n - 1] == row;
      }
    } else {
      assert rows[..0] == [];
    }
    hide Present, ReferenceOf, VendorOf;
  }

  /** The tables an import leaves, and whether it failed. */
  datatype Outcome = Outcome(customers: seq<Customer>, orders: seq<Order>, failed: bool)

  function WholeImport(cases: Cases, rows: seq<Row>, customers: seq<Customer>, orders: seq<Order>): Outcome {
    var b := SettleAll(cases, rows, Consignors(rows), Opened(cases, customers));
    Outcome(b.customers, if b.failed then orders else ImportRows(cases, b.byName, orders, rows).orders, b.failed)
  }

  /** What an import leaves when it is stopped after `n` consignors and, once all are settled, `k` rows;
      or when it failed before. */
  function StoppedImport(cases: Cases, rows: seq<Row>, customers: seq<Customer>, orders: seq<Order>, n: nat,
                         k: nat): Outcome
    requires n <= |Consignors(rows)| && k <= |rows|
  {
    var b := SettleAll(cases, rows, Consignors(rows)[..n], Opened(cases, customers));
    var reached := n == |Consignors(rows)| && !b.failed;
    Outcome(b.customers, if reached then ImportRows(cases, b.byName, orders, rows[..k]).orders else orders, b.failed)
  }

  /** A failed run has stored what it had when it met the name it failed on. */
  lemma {:induction false} FailurePoint(cases: Cases, rows: seq<Row>, names: seq<string>, b: Book) returns (m: nat)
    requires !b.failed
    ensures m <= |names| && !SettleAll(cases, rows, names[..m], b).failed
    ensures SettleAll(cases, rows, names[..m], b).customers == SettleAll(cases, rows, names, b).customers
    decreases |names|
  {
    if !SettleAll(cases, rows, names, b).failed {
      m := |names|;
      assert names[..m] == names;
    } else {
      var init := names[..|names| - 1];
      m := FailurePoint(cases, rows, init, b);
      assert init[..m] == names[..m];
    }
  }

  /** Stopped anywhere, among the consignors or among the rows, or failed, and run again from what is
      stored: the import ends in the same customers and orders as a run never interrupted, and fails
      or not alike. */
  lemma ResumeImport(cases: Cases, rows: seq<Row>, customers: seq<Customer>, orders: seq<Order>, n: nat, k: nat)
    requires UniquePhones(customers) && CleanNames(Consignors(rows))
    requires n <= |Consignors(rows)| && k <= |rows|
    ensures var stopped := StoppedImport(cases, rows, customers, orders, n, k);
            WholeImport(cases, rows, stopped.customers, stopped.orders) == WholeImport(cases, rows, customers, orders)
  {
    hide SettleAll, Opened, UniquePhones, CleanNames, Consignors, ImportRows;
    var names := Consignors(rows);
    assert !Opened(cases, customers).failed by {
      OpenedNotFailed(cases, customers);
    }
    var m := FailurePoint(cases, rows, names[..n], Opened(cases, customers));
    assert names[..n][..m] == names[..m];
    ResumeSettles(cases, rows, names, m, customers);
    var b := SettleAll(cases, rows, names[..n], Opened(cases, customers));
    if n == |names| && !b.failed {
      assert names[..n] == names && rows[..|rows|] == rows;
      ResumeOrders(cases, b.byName, orders, rows, k, |rows|);
    }
  }

  lemma OpenedNotFailed(cases: Cases, customers: seq<Customer>)
    ensures !Opened(cases, customers).failed
  {
  }

  /** The whole import run again after a whole run: nobody is created and nothing is imported. */
  lemma SecondRunDoesNothing(cases: Cases, rows: seq<Row>, existing: seq<Customer>, orders: seq<Order>)
    requires UniquePhones(existing) && CleanNames(Consignors(rows))
    requires !SettleAll(cases, rows, Consignors(rows), Opened(cases, existing)).failed
    ensures var first := SettleAll(cases, rows, Consignors(rows), Opened(cases, existing));
            var done := ImportRows(cases, first.byName, orders, rows);
            var second := SettleAll(cases, rows, Consignors(rows), Opened(cases, first.customers));
            && second == first
            && ImportRows(cases, second.byName, done.orders, rows) == Progress(done.orders, 0, |rows|)
  {
    var names := Consignors(rows);
    assert names[..|names|] == names && rows[..|rows|] == rows;
    ResumeSettles(cases, rows, names, |names|, existing);
    var first := SettleAll(cases, rows, names, Opened(cases, existing));
    ResumeOrders(cases, first.byName, orders, rows, |rows|, |rows|);
  }

  /** Every row with a consignor finds its customer once the consignors are settled. */
  lemma {:induction false} EveryConsignorSettled(cases: Cases, rows: seq<Row>, existing: seq<Customer>, row: Row)
    requires !SettleAll(cases, rows, Consignors(rows), Opened(cases, existing)).failed
    requires row in rows && row.consignor != ""
    ensures cases.upper(row.consignor) in SettleAll(cases, rows, Consignors(rows), Opened(cases, existing)).byName
  {
    ConsignorListed(rows, row);
    var names := Consignors(rows);
    var j :| 0 <= j < |names| && names[j] == row.consignor;
    assert names[..|names|] == names;
    KnownSoFar(cases, rows, names, existing, |names|, cases.upper(row.consignor));
  }

  lemma {:induction false} ConsignorListed(rows: seq<Row>, row: Row)
    requires row in rows && row.consignor != ""
    ensures row.consignor in Consignors(rows)
  {
    if row != rows[|rows| - 1] {
      ConsignorListed(rows[..|rows| - 1], row);
    }
  }
}
