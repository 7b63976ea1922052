/**
 Finding a product's price in its matrix, `src/services/pricing-engine/matrix-pricing.resolver.ts`:
 the quantity bands and the lookup.
 */
module MatrixLookup {
  import opened Common
  import opened DimensionKeys
  import opened Text

  // ---------- quantity bands

  datatype Tier = Tier(quantity: nat, isActive: bool)

  datatype Band = Band(lowerBound: nat, upperBound: Option<int>, text: string)

  function InsertQuantity(q: nat, sorted: seq<nat>): seq<nat> {
    if sorted == [] || q <= sorted[0] then [q] + sorted else [sorted[0]] + InsertQuantity(q, sorted[1..])
  }

  function ActiveQuantities(tiers: seq<Tier>): seq<nat> {
    if tiers == [] then []
    else if tiers[0].isActive then InsertQuantity(tiers[0].quantity, ActiveQuantities(tiers[1..]))
    else ActiveQuantities(tiers[1..])
  }

  function IntText(n: int): string {
    if n < 0 then "-" + Dec(-n) else Dec(n)
  }

  function BandAt(quantities: seq<nat>, i: nat): Band
    requires i < |quantities|
  {
    var lower := quantities[i];
    if i + 1 < |quantities| then
      var upper := quantities[i + 1] as int - 1;
      Band(lower, Some(upper), Dec(lower) + "-" + IntText(upper))
    else
      Band(lower, None, Dec(lower) + "+")
  }

  function BandsFrom(quantities: seq<nat>): (bands: seq<Band>)
    ensures |bands| == |quantities|
  {
    seq(|quantities|, i requires 0 <= i < |quantities| => BandAt(quantities, i))
  }

  function BuildQuantityBands(tiers: seq<Tier>): seq<Band> {
    BandsFrom(ActiveQuantities(tiers))
  }

  predicate Covers(b: Band, quantity: int) {
    b.lowerBound <= quantity && (b.upperBound.None? || quantity <= b.upperBound.value)
  }

  function FirstCovering(bands: seq<Band>, quantity: int): Option<Band> {
    if bands == [] then None
    else if Covers(bands[0], quantity) then Some(bands[0])
    else FirstCovering(bands[1..], quantity)
  }

  function ResolveQuantityBand(bands: seq<Band>, quantity: int): Option<Band> {
    if bands == [] then None
    else
      var covering := FirstCovering(bands, quantity);
      if covering.Some? then covering else Some(bands[0])
  }

  predicate Ascending(s: seq<nat>) {
    forall i, j :: 0 <= i < j < |s| ==> s[i] <= s[j]
  }

  lemma {:induction false} InsertKeepsAscending(q: nat, sorted: seq<nat>)
    requires Ascending(sorted)
    ensures Ascending(InsertQuantity(q, sorted))
    ensures forall x :: x in InsertQuantity(q, sorted) <==> x == q || x in sorted
    decreases sorted
  {
    if sorted != [] && q > sorted[0] {
      var rest := InsertQuantity(q, sorted[1..]);
      InsertKeepsAscending(q, sorted[1..]);
      assert sorted == [sorted[0]] + sorted[1..];
      forall j | 0 <= j < |rest| ensures sorted[0] <= rest[j] {
        assert rest[j] in rest;
      }
    }
  }

  predicate IsActive(tiers: seq<Tier>, q: nat) {
    Tier(q, true) in tiers
  }

  lemma {:induction false} ActiveQuantitiesAre(tiers: seq<Tier>)
    ensures Ascending(ActiveQuantities(tiers))
    ensures forall q :: q in ActiveQuantities(tiers) <==> IsActive(tiers, q)
    decreases tiers
  {
    if tiers != [] {
      ActiveQuantitiesAre(tiers[1..]);
      assert tiers == [tiers[0]] + tiers[1..];
      InsertKeepsAscending(tiers[0].quantity, ActiveQuantities(tiers[1..]));
    }
  }

  /** The first band that covers the quantity starts at the largest lower bound not above it. */
  lemma {:induction false} FirstCoveringIs(quantities: seq<nat>, from: nat, quantity: int)
    requires Ascending(quantities) && from <= |quantities|
    requires forall i :: 0 <= i < from ==> !Covers(BandAt(quantities, i), quantity)
    ensures var found := FirstCovering(BandsFrom(quantities)[from..], quantity);
            && (found.Some? ==> IsNearestLower(quantities, found.value.lowerBound, quantity))
            && (found.None? ==> forall q :: q in quantities ==> quantity < q)
    decreases |quantities| - from
  {
    var bands := BandsFrom(quantities);
    if from == |quantities| {
      NoneCovers(quantities, quantity, |quantities|);
    } else if Covers(bands[from], quantity) {
      assert quantities[from] in quantities;
    } else {
      assert bands[from..][1..] == bands[from + 1..];
      FirstCoveringIs(quantities, from + 1, quantity);
    }
  }

  predicate IsNearestLower(quantities: seq<nat>, low: nat, quantity: int) {
    && low in quantities
    && low <= quantity
    && forall q :: q in quantities && q <= quantity ==> q <= low
  }

  lemma {:induction false} NoneCovers(quantities: seq<nat>, quantity: int, n: nat)
    requires n <= |quantities|
    requires forall i :: 0 <= i < |quantities| ==> !Covers(BandAt(quantities, i), quantity)
    ensures forall i :: |quantities| - n <= i < |quantities| ==> quantity < quantities[i]
    decreases n
  {
    if n > 0 {
      NoneCovers(quantities, quantity, n - 1);
      assert !Covers(BandAt(quantities, |quantities| - n), quantity);
    }
  }

  ghost predicate IsRightBand(band: Option<Band>, tiers: seq<Tier>, quantity: int) {
    match band
    case None => forall q: nat :: !IsActive(tiers, q)
    case Some(b) =>
      && IsActive(tiers, b.lowerBound)
      && (b.lowerBound <= quantity ==> forall q: nat :: IsActive(tiers, q) && q <= quantity ==> q <= b.lowerBound)
      && (b.lowerBound > quantity ==> forall q: nat :: IsActive(tiers, q) ==> quantity < q && b.lowerBound <= q)
  }

  /**
   A quantity gets the band of the exact or nearest lower active tier, a quantity below all tiers gets
   the lowest, and only a product without active tiers gets none. Repeated tiers make no difference.
   */
  lemma BandIsNearestLowerTier(tiers: seq<Tier>, quantity: int)
    ensures IsRightBand(ResolveQuantityBand(BuildQuantityBands(tiers), quantity), tiers, quantity)
  {
    var quantities := ActiveQuantities(tiers);
    var bands := BuildQuantityBands(tiers);
    ActiveQuantitiesAre(tiers);
    if bands != [] {
      FirstCoveringIs(quantities, 0, quantity);
      assert bands[0..] == bands;
      assert bands[0].lowerBound == quantities[0] && quantities[0] in quantities;
    } else {
      assert quantities == [];
    }
  }

  /**
   Between different tiers, a band covers the quantities from its tier up to the next one, and the last
   band all above. Its label is written with its bounds.
   */
  lemma BandCoversIff(quantities: seq<nat>, i: nat, quantity: int)
    requires i < |quantities|
    ensures var b, isLast := BandsFrom(quantities)[i], i + 1 == |quantities|;
            && (Covers(b, quantity) <==> quantities[i] <= quantity && (isLast || quantity < quantities[i + 1]))
            && (isLast ==> b.text == Dec(quantities[i]) + "+")
            && (!isLast && 0 < quantities[i + 1] ==>
                  b.text == Dec(quantities[i]) + "-" + Dec(quantities[i + 1] - 1))
  {
  }

  lemma {:induction false} DecHasDigits(n: nat)
    ensures forall i :: 0 <= i < |Dec(n)| ==> IsDigit(Dec(n)[i])
  {
    ParseDecDec(n);
  }

  /** Bands that start at different quantities have different texts, none with a separator in it. */
  lemma BandTextsDiffer(quantities: seq<nat>, i: nat, j: nat)
    requires i < |quantities| && j < |quantities|
    ensures '&' !in BandAt(quantities, i).text
    ensures quantities[i] != quantities[j] ==> BandAt(quantities, i).text != BandAt(quantities, j).text
  {
    var a, b := BandAt(quantities, i), BandAt(quantities, j);
    DecHasDigits(quantities[i]);
    DecHasDigits(quantities[j]);
    if i + 1 < |quantities| {
      var upper := quantities[i + 1] as int - 1;
      DecHasDigits(if upper < 0 then -upper else upper);
    }
    if a.text == b.text {
      var da, db := Dec(quantities[i]), Dec(quantities[j]);
      assert !IsDigit(a.text[|da|]) && !IsDigit(b.text[|db|]);
      assert |da| == |db|;
      assert da == a.text[..|da|] == b.text[..|db|] == db;
      DecIsInjective(quantities[i], quantities[j]);
    }
  }

  // ---------- the lookup

  /** `dimensionKey` is None when the stored value is not an object. */
  datatype Cell = Cell(
    id: string, dimensionKey: Option<DimensionKey>, hash: string, price: Option<real>, available: bool,
    unavailableReason: Option<string>)

  type Selections = map<string, string>

  datatype Resolution =
    | NotConfigured
    | NoBands
    | MustSelect(field: string)
    | NotAvailable(reason: string, key: DimensionKey, band: string)
    | Priced(price: real, cellId: string, chosen: DimensionKey, qtyBand: string)

  function WithoutBand(key: DimensionKey): seq<string> {
    if key == [] then []
    else (if key[0].name == QTY_BAND then [] else [key[0].name]) + WithoutBand(key[1..])
  }

  function InferDimensionFields(cells: seq<Cell>): Option<seq<string>> {
    if cells == [] || cells[0].dimensionKey.None? then None else Some(WithoutBand(cells[0].dimensionKey.value))
  }

  predicate IsSelected(selections: Selections, field: string) {
    field in selections && selections[field] != ""
  }

  /** The chosen values in the order of the fields, or the first field that has none. */
  function Choose(fields: seq<string>, selections: Selections, key: DimensionKey): Result<DimensionKey, string> {
    if fields == [] then Success(key)
    else if !IsSelected(selections, fields[0]) then Failure(fields[0])
    else Choose(fields[1..], selections, key + [Entry(fields[0], selections[fields[0]])])
  }

  function FindCell(cells: seq<Cell>, hash: string): Option<Cell> {
    if cells == [] then None else if cells[0].hash == hash then Some(cells[0]) else FindCell(cells[1..], hash)
  }

  /** What is answered for a key: the price of the cell with its hash, if that cell is available and has one. */
  function AnswerFor(cells: seq<Cell>, key: DimensionKey, band: string): Resolution {
    var cell := FindCell(cells, BuildDimensionKeyHash(key));
    if cell.None? || !cell.value.available || cell.value.price.None? then
      NotAvailable(
        if cell.Some? && cell.value.unavailableReason.Some? then cell.value.unavailableReason.value
        else "This combination is not available",
        key, band)
    else
      Priced(cell.value.price.value, cell.value.id, key, band)
  }

  function ResolveMatrixPrice(cells: seq<Cell>, tiers: seq<Tier>, selections: Selections, quantity: int): Resolution {
    var fields := InferDimensionFields(cells);
    if fields.None? then NotConfigured
    else
      var band := ResolveQuantityBand(BuildQuantityBands(tiers), quantity);
      if band.None? then NoBands
      else
        match Choose(fields.value, selections, [Entry(QTY_BAND, band.value.text)])
        case Failure(field) => MustSelect(field)
        case Success(key) => AnswerFor(cells, key, band.value.text)
  }

  /** Cells as the admin screens store them: the hash is that of the key, and is unique within the product. */
  predicate WellStored(cells: seq<Cell>) {
    && (forall c :: c in cells ==> c.dimensionKey.Some? && DistinctNames(c.dimensionKey.value)
                                   && c.hash == BuildDimensionKeyHash(c.dimensionKey.value))
    && (forall i, j :: 0 <= i < j < |cells| ==> cells[i].hash != cells[j].hash)
  }

  predicate NoSeparators(cells: seq<Cell>, selections: Selections) {
    && (forall c :: c in cells && c.dimensionKey.Some? ==> AllClean(c.dimensionKey.value))
    && (forall f :: f in selections ==> '&' !in selections[f])
  }

  /** What the customer asked for: the band's text and the selected value of each field. */
  ghost predicate IsWanted(key: DimensionKey, fields: seq<string>, selections: Selections, band: string) {
    && Entry(QTY_BAND, band) in key
    && (forall f :: f in fields ==> f in selections && selections[f] != "" && Entry(f, selections[f]) in key)
    && (forall e :: e in key ==> e.name == QTY_BAND || e.name in fields)
  }

  lemma {:induction false} FindCellFinds(cells: seq<Cell>, hash: string)
    ensures var found := FindCell(cells, hash);
            && (found.Some? ==> found.value in cells && found.value.hash == hash)
            && (found.None? ==> forall c :: c in cells ==> c.hash != hash)
    decreases cells
  {
    if cells != [] {
      FindCellFinds(cells[1..], hash);
      assert cells == [cells[0]] + cells[1..];
    }
  }

  lemma {:induction false} FieldsOf(key: DimensionKey)
    requires DistinctNames(key)
    ensures forall f :: f in WithoutBand(key) ==> f != QTY_BAND && exists e :: e in key && e.name == f
    ensures forall i, j :: 0 <= i < j < |WithoutBand(key)| ==> WithoutBand(key)[i] != WithoutBand(key)[j]
    ensures forall e :: e in key ==> e.name == QTY_BAND || e.name in WithoutBand(key)
    decreases key
  {
    if key != [] {
      FieldsOf(key[1..]);
      assert key == [key[0]] + key[1..];
      var rest := WithoutBand(key[1..]);
      forall f | f in rest ensures f != key[0].name {
        var e :| e in key[1..] && e.name == f;
      }
      assert forall j :: 0 <= j < |rest| ==> rest[j] in rest;
    }
  }

  function Chosen(fields: seq<string>, selections: Selections): DimensionKey
    requires forall f :: f in fields ==> f in selections
  {
    if fields == [] then [] else [Entry(fields[0], selections[fields[0]])] + Chosen(fields[1..], selections)
  }

  /** The key built is the key before it followed by the selected value of each field. */
  lemma {:induction false} ChooseChooses(fields: seq<string>, selections: Selections, key: DimensionKey)
    ensures var r := Choose(fields, selections, key);
            && (r.Failure? ==> r.error in fields && !IsSelected(selections, r.error))
            && (r.Success? ==> forall f :: f in fields ==> IsSelected(selections, f))
            && (r.Success? ==> r.value == key + Chosen(fields, selections))
    decreases fields
  {
    if fields != [] && IsSelected(selections, fields[0]) {
      ChooseChooses(fields[1..], selections, key + [Entry(fields[0], selections[fields[0]])]);
      assert fields == [fields[0]] + fields[1..];
    }
  }

  lemma {:induction false} ChosenIs(fields: seq<string>, selections: Selections)
    requires forall f :: f in fields ==> f in selections
    ensures forall e :: e in Chosen(fields, selections) <==> e.name in fields && e.value == selections[e.name]
    ensures Names(Chosen(fields, selections)) == fields
    decreases fields
  {
    if fields != [] {
      ChosenIs(fields[1..], selections);
      assert fields == [fields[0]] + fields[1..];
      assert Chosen(fields, selections)[1..] == Chosen(fields[1..], selections);
    }
  }

  /** The key that is looked up holds the entries wanted, each name once. */
  lemma KeyIsWanted(cells: seq<Cell>, band: string, selections: Selections, r: Result<DimensionKey, string>)
    requires WellStored(cells) && cells != []
    requires r == Choose(WithoutBand(cells[0].dimensionKey.value), selections, [Entry(QTY_BAND, band)])
    ensures r.Failure? ==> r.error in WithoutBand(cells[0].dimensionKey.value) && !IsSelected(selections, r.error)
    ensures r.Success? ==> DistinctNames(r.value)
    ensures r.Success? ==> IsWanted(r.value, WithoutBand(cells[0].dimensionKey.value), selections, band)
    ensures r.Success? ==> forall f :: f in WithoutBand(cells[0].dimensionKey.value) ==> f in selections
    ensures r.Success? ==>
              r.value == [Entry(QTY_BAND, band)] + Chosen(WithoutBand(cells[0].dimensionKey.value), selections)
  {
    hide WithoutBand, Choose, Chosen, IsWanted, DistinctNames;
    var first := cells[0].dimensionKey.value;
    var fields := WithoutBand(first);
    assert cells[0] in cells;
    FieldsOf(first);
    ChooseChooses(fields, selections, [Entry(QTY_BAND, band)]);
    if r.Success? {
      ChosenIsDistinct(fields, selections, band);
      ChosenIsWanted(fields, selections, band);
    }
  }

  lemma ChosenIsClean(first: DimensionKey, selections: Selections)
    requires DistinctNames(first) && AllClean(first)
    requires forall f :: f in WithoutBand(first) ==> f in selections && '&' !in selections[f]
    ensures AllClean(Chosen(WithoutBand(first), selections))
  {
    FieldsOf(first);
    ChosenIs(WithoutBand(first), selections);
    hide WithoutBand, Chosen;
    forall e | e in Chosen(WithoutBand(first), selections) ensures IsClean(e) {
      var g :| g in first && g.name == e.name;
      assert IsClean(g);
    }
  }

  lemma ChosenIsDistinct(fields: seq<string>, selections: Selections, band: string)
    requires QTY_BAND !in fields && forall f :: f in fields ==> f in selections
    requires forall i, j :: 0 <= i < j < |fields| ==> fields[i] != fields[j]
    ensures DistinctNames([Entry(QTY_BAND, band)] + Chosen(fields, selections))
  {
    var chosen := Chosen(fields, selections);
    var key := [Entry(QTY_BAND, band)] + chosen;
    ChosenIs(fields, selections);
    hide Chosen;
    forall i | 0 < i < |key| ensures key[i].name == fields[i - 1] && fields[i - 1] in fields {
      assert key[i] == chosen[i - 1] && Names(chosen)[i - 1] == fields[i - 1];
    }
  }

  lemma ChosenIsWanted(fields: seq<string>, selections: Selections, band: string)
    requires forall f :: f in fields ==> f in selections && IsSelected(selections, f)
    ensures IsWanted([Entry(QTY_BAND, band)] + Chosen(fields, selections), fields, selections, band)
  {
    var chosen := Chosen(fields, selections);
    var key := [Entry(QTY_BAND, band)] + chosen;
    ChosenIs(fields, selections);
    hide Chosen, Names;
    assert key[0] == Entry(QTY_BAND, band);
    forall f | f in fields ensures Entry(f, selections[f]) in key {
      assert Entry(f, selections[f]) in chosen;
    }
    forall e | e in key ensures e.name == QTY_BAND || e.name in fields {
      assert e == key[0] || e in chosen;
    }
  }

  lemma {:induction false} FirstCoveringIsOneOf(bands: seq<Band>, quantity: int)
    ensures FirstCovering(bands, quantity).Some? ==> FirstCovering(bands, quantity).value in bands
    decreases bands
  {
    if bands != [] {
      FirstCoveringIsOneOf(bands[1..], quantity);
    }
  }

  lemma ResolvedIsOneOf(bands: seq<Band>, quantity: int)
    requires ResolveQuantityBand(bands, quantity).Some?
    ensures ResolveQuantityBand(bands, quantity).value in bands
  {
    FirstCoveringIsOneOf(bands, quantity);
  }

  lemma ResolvedIsABand(quantities: seq<nat>, quantity: int)
    requires ResolveQuantityBand(BandsFrom(quantities), quantity).Some?
    ensures '&' !in ResolveQuantityBand(BandsFrom(quantities), quantity).value.text
  {
    var bands := BandsFrom(quantities);
    ResolvedIsOneOf(bands, quantity);
    var band := ResolveQuantityBand(bands, quantity).value;
    var i :| 0 <= i < |bands| && bands[i] == band;
    BandTextsDiffer(quantities, i, i);
  }

  /** Two keys that both have exactly the entries wanted, and each name once, are the same. */
  lemma WantedIsUnique(k1: DimensionKey, k2: DimensionKey, fields: seq<string>, selections: Selections, band: string)
    requires DistinctNames(k1) && DistinctNames(k2)
    requires IsWanted(k1, fields, selections, band) && QTY_BAND !in fields
    ensures IsWanted(k2, fields, selections, band) <==> SameEntries(k1, k2)
  {
    if IsWanted(k2, fields, selections, band) {
      WantedIsIncluded(k1, k2, fields, selections, band);
      WantedIsIncluded(k2, k1, fields, selections, band);
    }
  }

  lemma WantedIsIncluded(k1: DimensionKey, k2: DimensionKey, fields: seq<string>, selections: Selections, band: string)
    requires DistinctNames(k1)
    requires IsWanted(k1, fields, selections, band) && IsWanted(k2, fields, selections, band)
    ensures forall e :: e in k1 ==> e in k2
  {
    forall e | e in k1 ensures e in k2 {
      var wanted := if e.name == QTY_BAND then Entry(QTY_BAND, band) else Entry(e.name, selections[e.name]);
      assert wanted in k1;
    }
  }

  /** The text is that of the band a quantity gets: the exact or nearest lower tier's, or the lowest. */
  ghost predicate IsBandOf(text: string, tiers: seq<Tier>, quantity: int) {
    exists b :: b in BuildQuantityBands(tiers) && b.text == text && IsRightBand(Some(b), tiers, quantity)
  }

  /** What each answer has to mean for the customer. */
  ghost predicate IsRightAnswer(
    r: Resolution, cells: seq<Cell>, tiers: seq<Tier>, selections: Selections, quantity: int)
    requires WellStored(cells)
  {
    if cells == [] then r.NotConfigured?
    else
      assert cells[0] in cells;
      var fields := WithoutBand(cells[0].dimensionKey.value);
      match r
      case NotConfigured => false
      case NoBands => forall q: nat :: !IsActive(tiers, q)
      case MustSelect(f) => f in fields && (f !in selections || selections[f] == "")
      case NotAvailable(reason, key, band) =>
        && IsBandOf(band, tiers, quantity) && IsWanted(key, fields, selections, band)
        && (forall c :: c in cells && IsWanted(c.dimensionKey.value, fields, selections, band) ==>
              && (!c.available || c.price.None?)
              && reason == Or(c.unavailableReason, "This combination is not available"))
        && ((forall c :: c in cells ==> !IsWanted(c.dimensionKey.value, fields, selections, band)) ==>
              reason == "This combination is not available")
      case Priced(price, id, key, band) =>
        IsBandOf(band, tiers, quantity) && IsWanted(key, fields, selections, band) &&
        exists c :: c in cells && c.id == id && c.available && c.price == Some(price)
                    && IsWanted(c.dimensionKey.value, fields, selections, band)
  }

  /** No cell with the hash of the key has other entries than the key. */
  ghost predicate ToldApart(cells: seq<Cell>, key: DimensionKey)
    requires WellStored(cells)
  {
    forall c :: c in cells && c.hash == BuildDimensionKeyHash(key) ==> SameEntries(key, c.dimensionKey.value)
  }

  /** If the hash of the key that is looked up tells it apart from the cells, the answer is right. */
  lemma ToldApartIsRight(cells: seq<Cell>, tiers: seq<Tier>, selections: Selections, quantity: int)
    requires WellStored(cells) && cells != []
    requires var band := ResolveQuantityBand(BuildQuantityBands(tiers), quantity);
             band.Some? ==>
               var first := [Entry(QTY_BAND, band.value.text)];
               var r := Choose(WithoutBand(cells[0].dimensionKey.value), selections, first);
               r.Success? ==> ToldApart(cells, r.value)
    ensures IsRightAnswer(ResolveMatrixPrice(cells, tiers, selections, quantity), cells, tiers, selections, quantity)
  {
    BandIsNearestLowerTier(tiers, quantity);
    var band := ResolveQuantityBand(BuildQuantityBands(tiers), quantity);
    assert cells[0] in cells;
    if band.Some? {
      assert IsBandOf(band.value.text, tiers, quantity) by {
        ResolvedIsOneOf(BuildQuantityBands(tiers), quantity);
      }
      var r := Choose(WithoutBand(cells[0].dimensionKey.value), selections, [Entry(QTY_BAND, band.value.text)]);
      KeyIsWanted(cells, band.value.text, selections, r);
      if r.Success? {
        AnswerIsRight(cells, tiers, selections, quantity, r.value, band.value.text);
      }
    }
    hide IsBandOf, IsRightBand, IsWanted, WithoutBand, Choose, BuildQuantityBands, ResolveQuantityBand, ToldApart;
    hide AnswerFor, DistinctNames;
  }

  lemma AnswerIsRight(
    cells: seq<Cell>, tiers: seq<Tier>, selections: Selections, quantity: int, key: DimensionKey, band: string)
    requires WellStored(cells) && cells != [] && ToldApart(cells, key) && DistinctNames(key)
    requires IsWanted(key, WithoutBand(cells[0].dimensionKey.value), selections, band)
    requires IsBandOf(band, tiers, quantity)
    ensures IsRightAnswer(AnswerFor(cells, key, band), cells, tiers, selections, quantity)
  {
    HashFindsWanted(cells, band, selections, key);
    FindCellFinds(cells, BuildDimensionKeyHash(key));
    HashesAreUnique(cells);
    hide IsBandOf, IsRightBand, IsWanted, WithoutBand, BuildQuantityBands, ToldApart, BuildDimensionKeyHash, FindCell;
  }

  /** Then the cells with the hash of the key are those that were wanted. */
  lemma HashFindsWanted(cells: seq<Cell>, band: string, selections: Selections, key: DimensionKey)
    requires WellStored(cells) && cells != [] && ToldApart(cells, key) && DistinctNames(key)
    requires IsWanted(key, WithoutBand(cells[0].dimensionKey.value), selections, band)
    ensures forall c :: c in cells ==>
              (c.hash == BuildDimensionKeyHash(key)
               <==> IsWanted(c.dimensionKey.value, WithoutBand(cells[0].dimensionKey.value), selections, band))
  {
    var fields := WithoutBand(cells[0].dimensionKey.value);
    assert cells[0] in cells;
    FieldsOf(cells[0].dimensionKey.value);
    hide WithoutBand, IsWanted, BuildDimensionKeyHash;
    forall c | c in cells
      ensures c.hash == BuildDimensionKeyHash(key) <==> IsWanted(c.dimensionKey.value, fields, selections, band)
    {
      if SameEntries(key, c.dimensionKey.value) {
        HashIgnoresOrder(key, c.dimensionKey.value);
      }
      WantedIsUnique(key, c.dimensionKey.value, fields, selections, band);
    }
  }

  /** With unique hashes, what is found is the only cell with that hash. */
  lemma HashesAreUnique(cells: seq<Cell>)
    requires WellStored(cells)
    ensures forall c, d :: c in cells && d in cells && c.hash == d.hash ==> c == d
  {
  }

  /**
   Without separators in names and values, the price is that of the one cell whose key is the band and
   the selected values, and it is refused only for the reason given: no cells, no band, a field without
   a value, or no such cell with a price.
   */
  lemma PriceIsOfWantedCell(cells: seq<Cell>, tiers: seq<Tier>, selections: Selections, quantity: int)
    requires WellStored(cells) && NoSeparators(cells, selections)
    ensures IsRightAnswer(ResolveMatrixPrice(cells, tiers, selections, quantity), cells, tiers, selections, quantity)
  {
    var band := ResolveQuantityBand(BuildQuantityBands(tiers), quantity);
    if cells != [] {
      if band.Some? {
        var r := Choose(WithoutBand(cells[0].dimensionKey.value), selections, [Entry(QTY_BAND, band.value.text)]);
        ResolvedIsABand(ActiveQuantities(tiers), quantity);
        CleanIsToldApart(cells, band.value.text, selections, r);
      }
      hide WellStored, NoSeparators, Choose, WithoutBand, ToldApart, ResolveMatrixPrice, IsRightAnswer;
      ToldApartIsRight(cells, tiers, selections, quantity);
    }
  }

  lemma CleanIsToldApart(cells: seq<Cell>, band: string, selections: Selections, r: Result<DimensionKey, string>)
    requires WellStored(cells) && NoSeparators(cells, selections) && cells != [] && '&' !in band
    requires r == Choose(WithoutBand(cells[0].dimensionKey.value), selections, [Entry(QTY_BAND, band)])
    ensures r.Success? ==> ToldApart(cells, r.value)
  {
    var first := cells[0].dimensionKey.value;
    assert cells[0] in cells;
    KeyIsWanted(cells, band, selections, r);
    if r.Success? {
      ChosenIsClean(first, selections);
      assert AllClean([Entry(QTY_BAND, band)]);
      hide Choose, Chosen, WithoutBand, IsWanted, BuildDimensionKeyHash;
      forall c | c in cells && c.hash == BuildDimensionKeyHash(r.value)
        ensures SameEntries(r.value, c.dimensionKey.value)
      {
        HashTellsKeysApart(r.value, c.dimensionKey.value);
      }
    }
  }

  // ---------- which products are priced rightly, whatever their values hold

  /** Cells of a product over these fields: no stored value is empty, and bands are texts of quantity bands. */
  ghost predicate AsSaved(cells: seq<Cell>, fields: seq<string>) {
    WellStored(cells)
    && forall c :: c in cells ==> IsOver(c.dimensionKey.value, fields) && NoneEmpty(c.dimensionKey.value)
  }

  ghost predicate LookupsAreRight(fields: seq<string>) {
    forall cells, tiers, selections, quantity | AsSaved(cells, fields) ::
      IsRightAnswer(ResolveMatrixPrice(cells, tiers, selections, quantity), cells, tiers, selections, quantity)
  }

  lemma FieldsOfSaved(key: DimensionKey, fields: seq<string>)
    requires IsNamed(key, fields) && QTY_BAND !in fields
    ensures Elements(WithoutBand(key)) == Elements(fields)
  {
    FieldsOf(key);
    forall f ensures f in WithoutBand(key) <==> f in fields {
      if f in fields {
        assert f in NameSet(key);
        var e := EntryOf(key, f);
      }
      if f in WithoutBand(key) {
        var e :| e in key && e.name == f;
        assert e.name in NameSet(key);
      }
    }
  }

  /** What is looked up is a key over the band and the product's fields. */
  lemma WantedIsOver(key: DimensionKey, fields: seq<string>, selections: Selections, band: string)
    requires DistinctNames(key) && IsWanted(key, fields, selections, band) && '&' !in band
    ensures IsOver(key, fields)
  {
    assert Entry(QTY_BAND, band).name in NameSet(key);
    forall f | f in fields ensures f in NameSet(key) {
      assert Entry(f, selections[f]) in key;
    }
    forall e | e in key && e.name == QTY_BAND ensures '&' !in e.value {
      NameGivesEntry(key, e, Entry(QTY_BAND, band));
    }
  }

  /** With one field besides the band every lookup is right, whatever separators the values hold. */
  lemma OneFieldIsPricedRight(
    cells: seq<Cell>, tiers: seq<Tier>, selections: Selections, quantity: int, fields: seq<string>)
    requires |fields| <= 1 && QTY_BAND !in fields && AsSaved(cells, fields)
    ensures IsRightAnswer(ResolveMatrixPrice(cells, tiers, selections, quantity), cells, tiers, selections, quantity)
  {
    var band := ResolveQuantityBand(BuildQuantityBands(tiers), quantity);
    if cells != [] {
      if band.Some? {
        var first := cells[0].dimensionKey.value;
        var r := Choose(WithoutBand(first), selections, [Entry(QTY_BAND, band.value.text)]);
        assert cells[0] in cells;
        ResolvedIsABand(ActiveQuantities(tiers), quantity);
        KeyIsWanted(cells, band.value.text, selections, r);
        FieldsOfSaved(first, fields);
        if r.Success? {
          WantedIsOver(r.value, WithoutBand(first), selections, band.value.text);
          assert IsOver(r.value, fields);
          forall c | c in cells && c.hash == BuildDimensionKeyHash(r.value)
            ensures SameEntries(r.value, c.dimensionKey.value)
          {
            OneFieldIsToldApart(r.value, c.dimensionKey.value, fields);
          }
        }
      }
      ToldApartIsRight(cells, tiers, selections, quantity);
    }
  }

  lemma OneTierBand()
    ensures ResolveQuantityBand(BuildQuantityBands([Tier(1, true)]), 1) == Some(Band(1, None, "1+"))
  {
    assert ActiveQuantities([Tier(1, true)]) == [1] && Dec(1) == "1";
    assert BandAt([1], 0) == Band(1, None, "1+");
    assert BuildQuantityBands([Tier(1, true)]) == [Band(1, None, "1+")];
  }

  function SelectionsOf(key: DimensionKey): (selections: Selections)
    requires DistinctNames(key)
  {
    map e | e in key :: e.name := e.value
  }

  lemma SelectionsOfKey(key: DimensionKey)
    requires DistinctNames(key)
    ensures forall e :: e in key ==> e.name in SelectionsOf(key) && SelectionsOf(key)[e.name] == e.value
    ensures forall f :: f in SelectionsOf(key) ==> f in NameSet(key)
  {
  }

  /** A key is what its own values ask for. */
  lemma KeyWantsItself(key: DimensionKey, fields: seq<string>, list: seq<string>, selections: Selections)
    requires IsOver(key, fields) && NoneEmpty(key) && Entry(QTY_BAND, "1+") in key
    requires Elements(list) == Elements(fields) && QTY_BAND !in fields
    requires forall e :: e in key ==> e.name in selections && selections[e.name] == e.value
    ensures IsWanted(key, list, selections, "1+")
  {
    forall f | f in list ensures IsSelected(selections, f) && Entry(f, selections[f]) in key {
      assert f in Elements(list) && f in NameSet(key);
      var e := EntryOf(key, f);
      assert e == Entry(f, selections[f]);
    }
    forall e | e in key ensures e.name == QTY_BAND || e.name in list {
      assert e.name in NameSet(key);
      assert e.name == QTY_BAND || e.name in Elements(list);
    }
  }

  /** Where all fields have a value, the key that is looked up is the wanted one. */
  lemma ChoosingFindsWanted(first: DimensionKey, selections: Selections, asked: DimensionKey)
    requires DistinctNames(first) && DistinctNames(asked)
    requires IsWanted(asked, WithoutBand(first), selections, "1+")
    ensures var r := Choose(WithoutBand(first), selections, [Entry(QTY_BAND, "1+")]);
            r.Success? && BuildDimensionKeyHash(r.value) == BuildDimensionKeyHash(asked)
  {
    var fields := WithoutBand(first);
    var cells := [Cell("", Some(first), BuildDimensionKeyHash(first), None, false, None)];
    var r := Choose(fields, selections, [Entry(QTY_BAND, "1+")]);
    FieldsOf(first);
    KeyIsWanted(cells, "1+", selections, r);
    WantedIsUnique(asked, r.value, fields, selections, "1+");
    HashIgnoresOrder(asked, r.value);
  }

  /**
   With two fields or more, some product and some selections bring up the price of a cell that was not
   asked for: a separator in a selected value stands in for the one between two fields.
   */
  lemma SeparatorFindsAnotherCell(fields: seq<string>) returns (cells: seq<Cell>, selections: Selections)
    requires |fields| >= 2 && QTY_BAND !in fields
    requires forall k, m :: 0 <= k < m < |fields| ==> fields[k] != fields[m]
    ensures AsSaved(cells, fields)
    ensures var tiers := [Tier(1, true)];
            var r := ResolveMatrixPrice(cells, tiers, selections, 1);
            r.Priced? && !IsRightAnswer(r, cells, tiers, selections, 1)
  {
    var asked, stored, e := CollidingKeys(fields);
    var cell := Cell("cell", Some(stored), BuildDimensionKeyHash(stored), Some(10.0), true, None);
    cells, selections := [cell], SelectionsOf(asked);
    CellIsSaved(cell, stored, fields);
    assert e.name in WithoutBand(stored) by {
      FieldsOfSaved(stored, fields);
      assert e.name in Elements(WithoutBand(stored));
    }
    SelectionsOfKey(asked);
    hide *;
    OtherCellIsPriced(asked, stored, fields, cell);
    OtherCellIsNotRight(ResolveMatrixPrice([cell], [Tier(1, true)], selections, 1), cell, e, selections);
  }

  lemma CellIsSaved(cell: Cell, stored: DimensionKey, fields: seq<string>)
    requires IsOver(stored, fields) && NoneEmpty(stored)
    requires cell.dimensionKey == Some(stored) && cell.hash == BuildDimensionKeyHash(stored)
    ensures AsSaved([cell], fields) && WellStored([cell])
  {
  }

  /** A key that is asked for and another that is stored, of one text form, and an entry only the first has. */
  lemma CollidingKeys(fields: seq<string>) returns (asked: DimensionKey, stored: DimensionKey, e: Entry)
    requires |fields| >= 2 && QTY_BAND !in fields
    requires forall k, m :: 0 <= k < m < |fields| ==> fields[k] != fields[m]
    ensures IsOver(asked, fields) && NoneEmpty(asked) && Entry(QTY_BAND, "1+") in asked
    ensures IsOver(stored, fields) && NoneEmpty(stored)
    ensures BuildDimensionKeyHash(stored) == BuildDimensionKeyHash(asked)
    ensures e in asked && e !in stored && e.name in fields
  {
    var key, i, j := KeyOver(fields, "1+", 1, 2);
    assert key[i].name != QTY_BAND && key[j].name != QTY_BAND;
    hide IsOver, NoneEmpty, IsSorted, Between, SameEntries, WithValues, BuildDimensionKeyHash;
    asked, stored := TwoWithOneHash(key, i, j, fields);
    BandStays(key, i, j, "x" + Between(key, i, j) + "y", "z");
    e := Entry(key[j].name, "z");
  }

  lemma OtherCellIsPriced(asked: DimensionKey, stored: DimensionKey, fields: seq<string>, cell: Cell)
    requires IsOver(asked, fields) && NoneEmpty(asked) && Entry(QTY_BAND, "1+") in asked && QTY_BAND !in fields
    requires IsNamed(stored, fields) && BuildDimensionKeyHash(stored) == BuildDimensionKeyHash(asked)
    requires cell == Cell("cell", Some(stored), BuildDimensionKeyHash(stored), Some(10.0), true, None)
    ensures var r := ResolveMatrixPrice([cell], [Tier(1, true)], SelectionsOf(asked), 1);
            r.Priced? && r.qtyBand == "1+"
  {
    var selections := SelectionsOf(asked);
    SelectionsOfKey(asked);
    FieldsOfSaved(stored, fields);
    KeyWantsItself(asked, fields, WithoutBand(stored), selections);
    ChoosingFindsWanted(stored, selections, asked);
    hide *;
    CellIsFound(cell, stored, asked, selections);
  }

  lemma OtherCellIsNotRight(r: Resolution, cell: Cell, e: Entry, selections: Selections)
    requires cell.dimensionKey.Some? && WellStored([cell]) && r.Priced?
    requires e !in cell.dimensionKey.value && e.name in WithoutBand(cell.dimensionKey.value)
    requires e.name in selections && selections[e.name] == e.value
    ensures !IsRightAnswer(r, [cell], [Tier(1, true)], selections, 1)
  {
    hide WithoutBand;
    assert !IsWanted(cell.dimensionKey.value, WithoutBand(cell.dimensionKey.value), selections, r.qtyBand);
  }

  lemma CellIsFound(cell: Cell, stored: DimensionKey, asked: DimensionKey, selections: Selections)
    requires cell == Cell("cell", Some(stored), BuildDimensionKeyHash(stored), Some(10.0), true, None)
    requires BuildDimensionKeyHash(stored) == BuildDimensionKeyHash(asked)
    requires var r := Choose(WithoutBand(stored), selections, [Entry(QTY_BAND, "1+")]);
             r.Success? && BuildDimensionKeyHash(r.value) == BuildDimensionKeyHash(asked)
    ensures var r := ResolveMatrixPrice([cell], [Tier(1, true)], selections, 1);
            r.Priced? && r.qtyBand == "1+"
  {
    OneTierBand();
    hide BuildQuantityBands, ResolveQuantityBand, BuildDimensionKeyHash, WithoutBand, Choose;
    assert FindCell([cell], BuildDimensionKeyHash(asked)) == Some(cell);
  }

  lemma BandStays(key: DimensionKey, i: nat, j: nat, vi: string, vj: string)
    requires i < j < |key| && key[i].name != QTY_BAND && key[j].name != QTY_BAND
    ensures forall e :: e in key && e.name == QTY_BAND ==> e in WithValues(key, i, j, vi, vj)
  {
    forall e | e in key && e.name == QTY_BAND ensures e in WithValues(key, i, j, vi, vj) {
      var n :| 0 <= n < |key| && key[n] == e;
      assert WithValues(key, i, j, vi, vj)[n] == e;
    }
  }

  /**
   All lookups of all products over these fields are right, whatever the values hold, exactly when there
   is at most one field besides the quantity band.
   */
  lemma LookupsAreRightIff(fields: seq<string>)
    requires QTY_BAND !in fields && forall k, m :: 0 <= k < m < |fields| ==> fields[k] != fields[m]
    ensures LookupsAreRight(fields) <==> |fields| <= 1
  {
    if |fields| <= 1 {
      forall cells, tiers, selections, quantity | AsSaved(cells, fields)
        ensures var r := ResolveMatrixPrice(cells, tiers, selections, quantity);
                IsRightAnswer(r, cells, tiers, selections, quantity)
      {
        OneFieldIsPricedRight(cells, tiers, selections, quantity, fields);
      }
    } else {
      var cells, selections := SeparatorFindsAnotherCell(fields);
    }
  }

  // ---------- bands of any text

  /** Cells as the route accepts them: no stored value is empty, and the band may be any text. */
  ghost predicate AsAccepted(cells: seq<Cell>, fields: seq<string>) {
    WellStored(cells)
    && forall c :: c in cells ==> IsNamed(c.dimensionKey.value, fields) && NoneEmpty(c.dimensionKey.value)
  }

  ghost predicate LookupsAreRightForAnyBands(fields: seq<string>) {
    forall cells, tiers, selections, quantity | AsAccepted(cells, fields) ::
      IsRightAnswer(ResolveMatrixPrice(cells, tiers, selections, quantity), cells, tiers, selections, quantity)
  }

  lemma BandAloneIsPricedRight(cells: seq<Cell>, tiers: seq<Tier>, selections: Selections, quantity: int)
    requires AsAccepted(cells, [])
    ensures IsRightAnswer(ResolveMatrixPrice(cells, tiers, selections, quantity), cells, tiers, selections, quantity)
  {
    var band := ResolveQuantityBand(BuildQuantityBands(tiers), quantity);
    if cells != [] {
      if band.Some? {
        var first := cells[0].dimensionKey.value;
        var r := Choose(WithoutBand(first), selections, [Entry(QTY_BAND, band.value.text)]);
        assert cells[0] in cells;
        ResolvedIsABand(ActiveQuantities(tiers), quantity);
        KeyIsWanted(cells, band.value.text, selections, r);
        FieldsOfSaved(first, []);
        if r.Success? {
          WantedIsOver(r.value, WithoutBand(first), selections, band.value.text);
          assert IsNamed(r.value, []);
          forall c | c in cells && c.hash == BuildDimensionKeyHash(r.value)
            ensures SameEntries(r.value, c.dimensionKey.value)
          {
            BandAloneIsToldApart(r.value, c.dimensionKey.value);
          }
        }
      }
      ToldApartIsRight(cells, tiers, selections, quantity);
    }
  }

  /** A cell saved with a separator in its band can be found for a quantity of another band. */
  lemma BandSeparatorFindsAnotherCell(fields: seq<string>) returns (cells: seq<Cell>, selections: Selections)
    requires |fields| >= 1 && QTY_BAND !in fields
    requires forall k, m :: 0 <= k < m < |fields| ==> fields[k] != fields[m]
    ensures AsAccepted(cells, fields)
    ensures var tiers := [Tier(1, true)];
            var r := ResolveMatrixPrice(cells, tiers, selections, 1);
            r.Priced? && !IsRightAnswer(r, cells, tiers, selections, 1)
  {
    var asked, stored := BandCollision(fields);
    var cell := Cell("cell", Some(stored), BuildDimensionKeyHash(stored), Some(10.0), true, None);
    cells, selections := [cell], SelectionsOf(asked);
    assert AsAccepted(cells, fields) by {
      hide NoneEmpty, BuildDimensionKeyHash, NameSet, Elements;
    }
    hide *;
    OtherCellIsPriced(asked, stored, fields, cell);
    OtherBandIsNotRight(ResolveMatrixPrice([cell], [Tier(1, true)], selections, 1), cell, fields, selections);
  }

  lemma OtherBandIsNotRight(r: Resolution, cell: Cell, fields: seq<string>, selections: Selections)
    requires AsAccepted([cell], fields) && cell.dimensionKey.Some? && r.Priced? && r.qtyBand == "1+"
    requires Entry(QTY_BAND, "1+") !in cell.dimensionKey.value
    ensures !IsRightAnswer(r, [cell], [Tier(1, true)], selections, 1)
  {
    assert !IsWanted(cell.dimensionKey.value, WithoutBand(cell.dimensionKey.value), selections, r.qtyBand);
  }

  /** With bands of any text, all lookups are right exactly when there is no field besides the band. */
  lemma LookupsAreRightForAnyBandsIff(fields: seq<string>)
    requires QTY_BAND !in fields && forall k, m :: 0 <= k < m < |fields| ==> fields[k] != fields[m]
    ensures LookupsAreRightForAnyBands(fields) <==> fields == []
  {
    if fields == [] {
      forall cells, tiers, selections, quantity | AsAccepted(cells, fields)
        ensures var r := ResolveMatrixPrice(cells, tiers, selections, quantity);
                IsRightAnswer(r, cells, tiers, selections, quantity)
      {
        BandAloneIsPricedRight(cells, tiers, selections, quantity);
      }
    } else {
      var cells, selections := BandSeparatorFindsAnotherCell(fields);
    }
  }
}
