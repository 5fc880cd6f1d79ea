/**
 * Collection lines and the rule that merges purchases into them
 * (packages/db/src/queries/collections.ts).
 */
module CollectionStore {
  import opened Wrappers
  import opened Arith
  import opened Csv
  import opened CollectionCsv

  // ------------------------------------------------------------------ //
  // Lines
  // ------------------------------------------------------------------ //

  type VariantId = string

  /** One line per card variant and condition: the unique index makes this pair a key. */
  datatype LineKey = LineKey(variant: VariantId, condition: string)

  datatype Item = Item(
    quantity: int,
    priceCents: Option<int>,
    currency: string,
    acquiredAt: Option<Moment>,
    notes: Option<string>)

  type Lines = map<LineKey, Item>

  datatype Mode = Add | Replace

  datatype StoreError = CurrencyMismatch | CheckFailed | MissingCard

  /** The table's check constraints. Postgres counts a note's length in characters. */
  predicate DbAccepts(item: Item) {
    && 1 <= item.quantity <= 100000
    && (item.priceCents == None || 0 <= item.priceCents.value <= 0x7FFF_FFFF)
    && (item.notes == None || |item.notes.value| <= 500)
    && |item.currency| == 3 && forall k :: 0 <= k < 3 ==> 'A' <= item.currency[k] <= 'Z'
  }

  // ------------------------------------------------------------------ //
  // Merging
  // ------------------------------------------------------------------ //

  datatype Lot = Lot(quantity: int, unitCents: Option<int>)

  function WeightedAverageCents(a: Lot, b: Lot): Option<int>
    requires a.quantity + b.quantity > 0
  {
    if a.unitCents == None || b.unitCents == None then None
    else Some(RoundDiv(a.quantity * a.unitCents.value + b.quantity * b.unitCents.value, a.quantity + b.quantity))
  }

  function Merged(existing: Item, incoming: Item): Item
    requires existing.quantity + incoming.quantity > 0
  {
    existing.(
      quantity := existing.quantity + incoming.quantity,
      priceCents := WeightedAverageCents(LotOf(existing), LotOf(incoming)),
      notes := if existing.notes.Some? then existing.notes else incoming.notes)
  }

  function LotOf(item: Item): Lot {
    Lot(item.quantity, item.priceCents)
  }

  /** What the line becomes, before the table's checks. */
  function Upserted(lines: Lines, key: LineKey, incoming: Item, mode: Mode): Result<Item, StoreError> {
    if key !in lines || mode == Replace then Ok(incoming)
    else if lines[key].currency != incoming.currency then Err(CurrencyMismatch)
    else if lines[key].quantity + incoming.quantity <= 0 then Err(CheckFailed)
    else Ok(Merged(lines[key], incoming))
  }

  function Upsert(lines: Lines, key: LineKey, incoming: Item, mode: Mode): Result<Lines, StoreError> {
    match Upserted(lines, key, incoming, mode)
    case Err(e) => Err(e)
    case Ok(item) => if DbAccepts(item) then Ok(lines[key := item]) else Err(CheckFailed)
  }

  /** Adding purchases one after another to a line that does not exist yet. */
  function AddAll(lines: Lines, key: LineKey, purchases: seq<Item>): Result<Lines, StoreError> {
    if |purchases| == 0 then Ok(lines)
    else match AddAll(lines, key, purchases[..|purchases| - 1])
      case Err(e) => Err(e)
      case Ok(before) => Upsert(before, key, purchases[|purchases| - 1], Add)
  }

  function Quantities(purchases: seq<Item>): int {
    if |purchases| == 0 then 0
    else Quantities(purchases[..|purchases| - 1]) + purchases[|purchases| - 1].quantity
  }

  /** What the purchases cost in all; an unknown cost counts as nothing here. */
  function TotalCost(purchases: seq<Item>): int {
    if |purchases| == 0 then 0
    else
      var last := purchases[|purchases| - 1];
      TotalCost(purchases[..|purchases| - 1])
        + last.quantity * (if last.priceCents.Some? then last.priceCents.value else 0)
  }

  /** The merged quantities after each merge: the second purchase on. */
  function MergedQuantities(purchases: seq<Item>): int {
    if |purchases| <= 1 then 0
    else MergedQuantities(purchases[..|purchases| - 1]) + Quantities(purchases)
  }

  ghost predicate AllKnown(purchases: seq<Item>) {
    forall k :: 0 <= k < |purchases| ==> purchases[k].priceCents.Some?
  }

  ghost predicate CostsWithin(purchases: seq<Item>, lo: int, hi: int) {
    forall k :: 0 <= k < |purchases| ==> purchases[k].priceCents.Some? && lo <= purchases[k].priceCents.value <= hi
  }

  lemma {:induction false} AddAllLine(lines: Lines, key: LineKey, purchases: seq<Item>)
    requires key !in lines && |purchases| > 0 && AddAll(lines, key, purchases).Ok?
    ensures var after := AddAll(lines, key, purchases).value;
            && key in after && DbAccepts(after[key]) && after[key].quantity == Quantities(purchases)
            && after == lines[key := after[key]]
    decreases |purchases|
  {
    var before := purchases[..|purchases| - 1];
    if |before| > 0 {
      AddAllLine(lines, key, before);
    } else {
      assert Quantities(before) == 0;
    }
  }

  /** One unknown cost makes the line's cost unknown, then and under every later merge; nothing else does. */
  lemma {:induction false} CostKnownIffAllKnown(lines: Lines, key: LineKey, purchases: seq<Item>)
    requires key !in lines && |purchases| > 0 && AddAll(lines, key, purchases).Ok?
    ensures key in AddAll(lines, key, purchases).value
    ensures AddAll(lines, key, purchases).value[key].priceCents.Some? <==> AllKnown(purchases)
    decreases |purchases|
  {
    AddAllLine(lines, key, purchases);
    var n := |purchases| - 1;
    var before := purchases[..n];
    if n == 0 {
    } else {
      AddAllLine(lines, key, before);
      CostKnownIffAllKnown(lines, key, before);
      assert AllKnown(purchases) <==> AllKnown(before) && purchases[n].priceCents.Some?;
    }
  }

  /** The first note given, if any. */
  function FirstNote(purchases: seq<Item>): Option<string> {
    if |purchases| == 0 then None
    else
      var before := FirstNote(purchases[..|purchases| - 1]);
      if before.Some? then before else purchases[|purchases| - 1].notes
  }

  /**
   * A note is never lost: the line keeps the first one given, and the date, currency and quantity sum
   * are its purchases'.
   */
  lemma {:induction false} FirstNoteStays(lines: Lines, key: LineKey, purchases: seq<Item>)
    requires key !in lines && |purchases| > 0 && AddAll(lines, key, purchases).Ok?
    ensures key in AddAll(lines, key, purchases).value
    ensures var line := AddAll(lines, key, purchases).value[key];
            && line.notes == FirstNote(purchases) && line.quantity == Quantities(purchases)
            && line.acquiredAt == purchases[0].acquiredAt
            && forall k :: 0 <= k < |purchases| ==> purchases[k].currency == line.currency
    decreases |purchases|
  {
    AddAllLine(lines, key, purchases);
    var n := |purchases| - 1;
    if n > 0 {
      AddAllLine(lines, key, purchases[..n]);
      FirstNoteStays(lines, key, purchases[..n]);
      hide WeightedAverageCents, DbAccepts;
      assert forall k :: 0 <= k < n ==> purchases[..n][k] == purchases[k];
    } else {
      assert FirstNote(purchases[..0]) == None;
    }
  }

  /** The stored unit cost never leaves the range of what was paid. */
  lemma {:induction false} CostStaysWithinWhatWasPaid(lines: Lines, key: LineKey, purchases: seq<Item>, lo: int,
          hi: int)
    requires key !in lines && |purchases| > 0 && AddAll(lines, key, purchases).Ok?
    requires CostsWithin(purchases, lo, hi) && forall k :: 0 <= k < |purchases| ==> purchases[k].quantity >= 1
    ensures key in AddAll(lines, key, purchases).value
    ensures var line := AddAll(lines, key, purchases).value[key];
            line.priceCents.Some? && lo <= line.priceCents.value <= hi
    decreases |purchases|
  {
    AddAllLine(lines, key, purchases);
    var n := |purchases| - 1;
    if n == 0 {
    } else {
      AddAllLine(lines, key, purchases[..n]);
      CostStaysWithinWhatWasPaid(lines, key, purchases[..n], lo, hi);
      var line, last := AddAll(lines, key, purchases[..n]).value[key], purchases[n];
      hide RoundDiv;
      MeanWithin(line.quantity, line.priceCents.value, last.quantity, last.priceCents.value, lo, hi);
    }
  }

  lemma MeanWithin(q: nat, u: int, r: nat, c: int, lo: int, hi: int)
    requires q + r > 0 && lo <= u <= hi && lo <= c <= hi
    ensures lo <= RoundDiv(q * u + r * c, q + r) <= hi
  {
    MulMono(lo, u, q);
    MulMono(u, hi, q);
    MulMono(lo, c, r);
    MulMono(c, hi, r);
    assert lo * (q + r) == lo * q + lo * r && hi * (q + r) == hi * q + hi * r;
    RoundDivBetween(q * u + r * c, q + r, lo, hi);
  }

  lemma MeanIsNearest(q: nat, u: int, r: nat, c: int)
    requires q + r > 0
    ensures -(q + r) <= 2 * ((q + r) * RoundDiv(q * u + r * c, q + r) - (q * u + r * c)) <= q + r
  {
    RoundDivIsNearest(q * u + r * c, q + r);
  }

  /** Twice the difference between what the line says it cost and what was paid. */
  ghost function Drift(line: Item, purchases: seq<Item>): int
    requires line.priceCents.Some?
  {
    2 * (line.quantity * line.priceCents.value - TotalCost(purchases))
  }

  lemma DriftStep(line: Item, purchases: seq<Item>)
    requires |purchases| > 1 && line.priceCents.Some? && line.quantity >= 1
    requires var last := purchases[|purchases| - 1];
             last.priceCents.Some? && line.quantity + last.quantity >= 1 && last.quantity >= 0
    ensures var n := |purchases| - 1;
            var q := line.quantity + purchases[n].quantity;
            -q <= Drift(Merged(line, purchases[n]), purchases) - Drift(line, purchases[..n]) <= q
  {
    var last := purchases[|purchases| - 1];
    MeanIsNearest(line.quantity, line.priceCents.value, last.quantity, last.priceCents.value);
  }

  /**
   * Rounding drifts by at most half a cent per card at each merge: twice the error is at most the sum of
   * the merged quantities.
   */
  lemma {:induction false} CostDriftIsBounded(lines: Lines, key: LineKey, purchases: seq<Item>)
    requires key !in lines && |purchases| > 0 && AddAll(lines, key, purchases).Ok? && AllKnown(purchases)
    requires forall k :: 0 <= k < |purchases| ==> purchases[k].quantity >= 1
    ensures key in AddAll(lines, key, purchases).value && AddAll(lines, key, purchases).value[key].priceCents.Some?
    ensures var drift := Drift(AddAll(lines, key, purchases).value[key], purchases);
            -MergedQuantities(purchases) <= drift <= MergedQuantities(purchases)
    decreases |purchases|
  {
    CostKnownIffAllKnown(lines, key, purchases);
    AddAllLine(lines, key, purchases);
    var n := |purchases| - 1;
    if n == 0 {
      assert TotalCost(purchases[..0]) == 0;
    } else {
      AddAllLine(lines, key, purchases[..n]);
      CostDriftIsBounded(lines, key, purchases[..n]);
      DriftStep(AddAll(lines, key, purchases[..n]).value[key], purchases);
    }
  }

  // ------------------------------------------------------------------ //
  // When purchases can be merged
  // ------------------------------------------------------------------ //

  ghost predicate OneCurrency(purchases: seq<Item>) {
    forall k :: 0 <= k < |purchases| ==> purchases[k].currency == purchases[0].currency
  }

  lemma MergedIsAccepted(line: Item, incoming: Item)
    requires DbAccepts(line) && DbAccepts(incoming)
    ensures DbAccepts(Merged(line, incoming)) <==> line.quantity + incoming.quantity <= 100000
  {
    if line.priceCents.Some? && incoming.priceCents.Some? {
      MeanWithin(line.quantity, line.priceCents.value, incoming.quantity, incoming.priceCents.value, 0, 0x7FFF_FFFF);
    }
    hide RoundDiv;
  }

  lemma MergedLineCurrency(lines: Lines, key: LineKey, purchases: seq<Item>)
    requires key !in lines && |purchases| > 0 && AddAll(lines, key, purchases).Ok?
    ensures key in AddAll(lines, key, purchases).value
    ensures AddAll(lines, key, purchases).value[key].currency == purchases[0].currency && OneCurrency(purchases)
  {
    FirstNoteStays(lines, key, purchases);
  }

  lemma {:induction false} QuantitiesGrow(purchases: seq<Item>)
    requires forall k :: 0 <= k < |purchases| ==> purchases[k].quantity >= 1
    ensures Quantities(purchases) >= |purchases|
    decreases |purchases|
  {
    if |purchases| == 0 {
    } else {
      QuantitiesGrow(purchases[..|purchases| - 1]);
    }
  }

  lemma OneCurrencySplit(purchases: seq<Item>)
    requires |purchases| > 1
    ensures var n := |purchases| - 1;
            OneCurrency(purchases) <==> OneCurrency(purchases[..n]) && purchases[n].currency == purchases[0].currency
  {
    var n := |purchases| - 1;
    assert forall k :: 0 <= k < n ==> purchases[..n][k] == purchases[k];
  }

  /** Purchases the table would take one by one merge exactly when they agree on the currency and fit one line. */
  lemma {:induction false} AddAllOkIff(lines: Lines, key: LineKey, purchases: seq<Item>)
    requires key !in lines && |purchases| > 0 && forall k :: 0 <= k < |purchases| ==> DbAccepts(purchases[k])
    ensures AddAll(lines, key, purchases).Ok? <==> OneCurrency(purchases) && Quantities(purchases) <= 100000
    ensures AddAll(lines, key, purchases).Err? ==>
              AddAll(lines, key, purchases).error in {CurrencyMismatch, CheckFailed}
    decreases |purchases|
  {
    var n := |purchases| - 1;
    var before, last := purchases[..n], purchases[n];
    if n == 0 {
      assert AddAll(lines, key, before) == Ok(lines) && Quantities(before) == 0;
    } else {
      AddAllOkIff(lines, key, before);
      OneCurrencySplit(purchases);
      if AddAll(lines, key, before).Ok? {
        AddAllLine(lines, key, before);
        MergedLineCurrency(lines, key, before);
        MergedIsAccepted(AddAll(lines, key, before).value[key], last);
      }
      assert DbAccepts(last);
      assert last.quantity >= 1;
      hide DbAccepts, Merged, OneCurrency;
    }
  }
}
