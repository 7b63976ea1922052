/**
 Pricing by the matrix strategy, `src/repositories/pricing.repository.ts` and
 `src/services/pricing-engine/matrix-pricing.resolver.ts`. Amounts are exact rupees.
 */
module MatrixPricing {
  import opened Common
  import opened MatrixLookup

  // ---------- which strategy

  datatype Bundle = Bundle(
    typeProfileKey: Option<string>,
    printConfigKey: Option<string>,
    printProcessKey: Option<string>,
    pricingProfileKey: Option<string>,
    cells: seq<Cell>,
    tiers: seq<Tier>,
    rules: seq<Rule>)

  /** The keys that may state the strategy, the strongest first. */
  function StrategyKeys(b: Bundle): seq<Option<string>> {
    [b.typeProfileKey, b.printConfigKey, b.printProcessKey, b.pricingProfileKey]
  }

  function FirstPresent(keys: seq<Option<string>>): Option<string> {
    if keys == [] then None else if keys[0].Some? then keys[0] else FirstPresent(keys[1..])
  }

  predicate HasPricedCell(cells: seq<Cell>) {
    exists c :: c in cells && c.price.Some?
  }

  function ResolvePricingStrategyKey(b: Bundle): string {
    var stated := FirstPresent(StrategyKeys(b));
    if stated.Some? && stated.value != "" then stated.value
    else if HasPricedCell(b.cells) then "matrix"
    else "quantity_pricing"
  }

  lemma {:induction false} FirstPresentIs(keys: seq<Option<string>>, i: nat)
    requires i <= |keys| && forall j :: 0 <= j < i ==> keys[j].None?
    ensures i == |keys| ==> FirstPresent(keys) == None
    ensures i < |keys| && keys[i].Some? ==> FirstPresent(keys) == keys[i]
    decreases keys
  {
    if i > 0 {
      FirstPresentIs(keys[1..], i - 1);
    }
  }

  /**
   The strongest key that is present decides, that of the type profile before that of the print
   configuration, the print process and the pricing profile: it is the strategy unless it is empty. An
   empty key does not give way to the weaker ones, but leaves the choice to whether any cell has a price.
   */
  lemma StrongestKeyDecides(b: Bundle, i: nat)
    requires i <= 4
    requires var keys := [b.typeProfileKey, b.printConfigKey, b.printProcessKey, b.pricingProfileKey];
             forall j :: 0 <= j < i ==> keys[j].None?
    ensures var keys := [b.typeProfileKey, b.printConfigKey, b.printProcessKey, b.pricingProfileKey];
            && (i < 4 && keys[i].Some? && keys[i] != Some("") ==> Some(ResolvePricingStrategyKey(b)) == keys[i])
            && (i == 4 || keys[i] == Some("") ==>
                  ResolvePricingStrategyKey(b)
                  == if exists c :: c in b.cells && c.price.Some? then "matrix" else "quantity_pricing")
  {
    FirstPresentIs(StrategyKeys(b), i);
  }

  // ---------- modifier rules

  /** A number in a rule's table, or another value and what it converts to, when it is a number at all. */
  datatype TableValue = Number(value: real) | Other(converted: Option<real>)

  /** `amountTable` is empty when the stored value is not an object. */
  datatype Rule = Rule(id: string, name: string, triggerField: string, triggerValue: string, amountKey: string,
                       amountTable: map<string, TableValue>)

  datatype Line = Line(code: string, name: string, amount: real)

  predicate IsTriggered(rule: Rule, selections: Selections) {
    rule.triggerField in selections && selections[rule.triggerField] == rule.triggerValue
  }

  function AmountOf(rule: Rule, selections: Selections): real {
    if rule.amountKey !in selections || selections[rule.amountKey] !in rule.amountTable then 0.0
    else
      match rule.amountTable[selections[rule.amountKey]]
      case Number(value) => value
      case Other(converted) => if converted.Some? then converted.value else 0.0
  }

  function LineOf(rule: Rule, selections: Selections): Line {
    Line("modifier:" + rule.id, rule.name, AmountOf(rule, selections))
  }

  /** One line for each rule that applies, in the order of the rules. */
  function LinesOf(rules: seq<Rule>, selections: Selections): seq<Line> {
    if rules == [] then []
    else
      var last := rules[|rules| - 1];
      LinesOf(rules[..|rules| - 1], selections)
      + if IsTriggered(last, selections) then [LineOf(last, selections)] else []
  }

  function Sum(lines: seq<Line>): real {
    if lines == [] then 0.0 else Sum(lines[..|lines| - 1]) + lines[|lines| - 1].amount
  }

  lemma SumSnoc(lines: seq<Line>, last: Line)
    ensures Sum(lines + [last]) == Sum(lines) + last.amount
  {
    assert (lines + [last])[..|lines|] == lines;
  }

  /** The number a rule adds: that in its table for the selected key, and nothing when there is none. */
  ghost predicate IsAmountFor(x: real, rule: Rule, selections: Selections) {
    var entry := if rule.amountKey in selections && selections[rule.amountKey] in rule.amountTable
                 then Some(rule.amountTable[selections[rule.amountKey]]) else None;
    && (forall n :: entry == Some(Number(n)) || entry == Some(Other(Some(n))) ==> x == n)
    && (entry == None || entry == Some(Other(None)) ==> x == 0.0)
  }

  /** The lines belong, in order, to exactly the rules at these positions. */
  ghost predicate AreLinesAt(lines: seq<Line>, at: seq<nat>, rules: seq<Rule>, selections: Selections) {
    && |lines| == |at|
    && (forall i, j :: 0 <= i < j < |at| ==> at[i] < at[j])
    && (forall i :: 0 <= i < |at| ==> at[i] < |rules|)
    && (forall i :: 0 <= i < |at| ==>
          && lines[i].code == "modifier:" + rules[at[i]].id && lines[i].name == rules[at[i]].name
          && IsAmountFor(lines[i].amount, rules[at[i]], selections))
  }

  /** These are exactly the positions of the rules whose trigger field is selected with the trigger value. */
  ghost predicate AreTriggered(at: seq<nat>, rules: seq<Rule>, selections: Selections) {
    forall k: nat :: k < |rules| ==>
      (k in at <==> rules[k].triggerField in selections && selections[rules[k].triggerField] == rules[k].triggerValue)
  }

  lemma TriggeredSnoc(at: seq<nat>, front: seq<Rule>, last: Rule, selections: Selections)
    requires AreTriggered(at, front, selections) && forall i :: 0 <= i < |at| ==> at[i] < |front|
    ensures AreTriggered(if IsTriggered(last, selections) then at + [|front|] else at, front + [last], selections)
  {
    assert forall k :: 0 <= k < |front| ==> (front + [last])[k] == front[k];
    assert forall k: nat :: k in at + [|front|] <==> k in at || k == |front|;
  }

  lemma LinesSnoc(lines: seq<Line>, at: seq<nat>, front: seq<Rule>, last: Rule, selections: Selections)
    requires AreLinesAt(lines, at, front, selections)
    ensures forall i :: 0 <= i < |at| ==> at[i] < |front|
    ensures AreLinesAt(lines, at, front + [last], selections)
    ensures AreLinesAt(lines + [LineOf(last, selections)], at + [|front|], front + [last], selections)
  {
  }

  lemma LinesOfSnoc(front: seq<Rule>, last: Rule, selections: Selections)
    ensures LinesOf(front + [last], selections)
         == if IsTriggered(last, selections) then LinesOf(front, selections) + [LineOf(last, selections)]
            else LinesOf(front, selections)
  {
    assert (front + [last])[..|front|] == front;
    assert LinesOf(front, selections) + [] == LinesOf(front, selections);
  }

  /**
   The lines are those of exactly the rules that are triggered, in the order of the rules, each with the
   rule's id and name and the number in its table.
   */
  lemma {:induction false} LinesAreOfTriggeredRules(rules: seq<Rule>, selections: Selections) returns (at: seq<nat>)
    ensures AreLinesAt(LinesOf(rules, selections), at, rules, selections)
    ensures AreTriggered(at, rules, selections)
    decreases rules
  {
    if rules == [] {
      at := [];
    } else {
      var front, last := rules[..|rules| - 1], rules[|rules| - 1];
      hide AreLinesAt, AreTriggered, LineOf, LinesOf;
      var before := LinesAreOfTriggeredRules(front, selections);
      assert rules == front + [last];
      LinesSnoc(LinesOf(front, selections), before, front, last, selections);
      TriggeredSnoc(before, front, last, selections);
      LinesOfSnoc(front, last, selections);
      at := if IsTriggered(last, selections) then before + [|front|] else before;
    }
  }

  method ApplyPriceModifierRules(
    basePrice: real, rules: seq<Rule>, selections: Selections)
    returns (total: real, lines: seq<Line>)
    ensures lines == LinesOf(rules, selections)
    ensures total == basePrice + Sum(lines)
  {
    total, lines := basePrice, [];
    for i := 0 to |rules|
      invariant lines == LinesOf(rules[..i], selections)
      invariant total == basePrice + Sum(lines)
    {
      var rule := rules[i];
      assert rules[..i + 1][..i] == rules[..i];
      if IsTriggered(rule, selections) {
        var line := LineOf(rule, selections);
        total := total + line.amount;
        assert (lines + [line])[..|lines|] == lines;
        lines := lines + [line];
      }
    }
    assert rules[..|rules|] == rules;
  }

  /** The sum of the lines is the sum over the rules that apply. */
  function SumOfRules(rules: seq<Rule>, selections: Selections): real {
    if rules == [] then 0.0
    else
      SumOfRules(rules[1..], selections)
      + if IsTriggered(rules[0], selections) then AmountOf(rules[0], selections) else 0.0
  }

  lemma {:induction false} SumOfRulesSnoc(rules: seq<Rule>, rule: Rule, selections: Selections)
    ensures SumOfRules(rules + [rule], selections)
         == SumOfRules(rules, selections) + if IsTriggered(rule, selections) then AmountOf(rule, selections) else 0.0
    decreases rules
  {
    if rules == [] {
      assert rules + [rule] == [rule];
    } else {
      assert (rules + [rule])[1..] == rules[1..] + [rule];
      SumOfRulesSnoc(rules[1..], rule, selections);
    }
  }

  /** No rule that applies is left out of the lines or counted twice. */
  lemma {:induction false} LinesAddUp(rules: seq<Rule>, selections: Selections)
    ensures Sum(LinesOf(rules, selections)) == SumOfRules(rules, selections)
    decreases rules
  {
    if rules != [] {
      var front, last := rules[..|rules| - 1], rules[|rules| - 1];
      assert rules == front + [last];
      LinesAddUp(front, selections);
      SumOfRulesSnoc(front, last, selections);
      var lines := LinesOf(front, selections);
      if IsTriggered(last, selections) {
        assert LinesOf(rules, selections) == lines + [LineOf(last, selections)];
        SumSnoc(lines, LineOf(last, selections));
      } else {
        assert LinesOf(rules, selections) == lines;
      }
    }
  }

  // ---------- the base price of a matrix product

  predicate IsWholePaise(n: real) {
    Round2(n) == n
  }

  function Times(n: real, quantity: int): real {
    n * quantity as real
  }

  function Scaled(lines: seq<Line>, quantity: int): (scaled: seq<Line>)
    ensures |scaled| == |lines|
  {
    seq(|lines|, i requires 0 <= i < |lines| => lines[i].(amount := Round2(Times(lines[i].amount, quantity))))
  }

  datatype BaseOverride = BaseOverride(amount: real, tierQuantity: string, lines: seq<Line>)

  function Charged(quantity: int): int {
    if quantity > 1 then quantity else 1
  }

  /** What replaces the base price in the calculator, and nothing when the strategy or the matrix gives no price. */
  function MatrixBase(b: Bundle, selections: Selections, quantity: int): Option<BaseOverride> {
    if ResolvePricingStrategyKey(b) != "matrix" then None
    else
      var matrix := ResolveMatrixPrice(b.cells, b.tiers, selections, quantity);
      if !matrix.Priced? then None
      else
        Some(BaseOverride(
               Round2(Times(matrix.price, Charged(quantity))),
               matrix.qtyBand,
               Scaled(LinesOf(b.rules, selections), Charged(quantity))))
  }

  // ---------- rounding

  lemma RoundIsNear(n: real)
    ensures -0.005 < Round2(n) - n <= 0.005
  {
    var f := (n * 100.0 + 0.5).Floor as real;
    assert n * 100.0 - 0.5 < f <= n * 100.0 + 0.5;
  }

  lemma WholeTimes(n: real, quantity: int)
    requires IsWholePaise(n)
    ensures IsWholePaise(Times(n, quantity))
  {
    var paise := (n * 100.0 + 0.5).Floor;
    assert n * quantity as real * 100.0 == (paise * quantity) as real;
    assert ((paise * quantity) as real + 0.5).Floor == paise * quantity;
  }

  lemma TimesDistributes(a: real, b: real, quantity: int)
    ensures Times(a + b, quantity) == Times(a, quantity) + Times(b, quantity)
  {
  }

  /** One line more: what it adds to the rounded and to the exact sum. */
  lemma SumOfScaled(front: seq<Line>, last: Line, quantity: int)
    ensures Sum(Scaled(front + [last], quantity)) == Sum(Scaled(front, quantity)) + Round2(Times(last.amount, quantity))
    ensures Times(Sum(front + [last]), quantity) == Times(Sum(front), quantity) + Times(last.amount, quantity)
  {
    hide Times, Round2, Sum;
    SumSnoc(front, last);
    TimesDistributes(Sum(front), last.amount, quantity);
    var added := last.(amount := Round2(Times(last.amount, quantity)));
    assert Scaled(front + [last], quantity) == Scaled(front, quantity) + [added];
    SumSnoc(Scaled(front, quantity), added);
  }

  lemma {:induction false} ScaledIsNear(lines: seq<Line>, quantity: int)
    ensures Abs(Sum(Scaled(lines, quantity)) - Times(Sum(lines), quantity)) <= 0.005 * |lines| as real
    decreases lines
  {
    if lines != [] {
      var front, last := lines[..|lines| - 1], lines[|lines| - 1];
      ScaledIsNear(front, quantity);
      RoundIsNear(Times(last.amount, quantity));
      assert lines == front + [last];
      SumOfScaled(front, last, quantity);
      hide Times, Round2, Sum, Scaled;
    }
  }

  lemma {:induction false} ScaledIsExact(lines: seq<Line>, quantity: int)
    requires forall l :: l in lines ==> IsWholePaise(l.amount)
    ensures Sum(Scaled(lines, quantity)) == Times(Sum(lines), quantity)
    decreases lines
  {
    if lines != [] {
      var front, last := lines[..|lines| - 1], lines[|lines| - 1];
      assert last in lines;
      ScaledIsExact(front, quantity);
      WholeTimes(last.amount, quantity);
      assert lines == front + [last];
      SumOfScaled(front, last, quantity);
    }
  }

  /** The unit price of what was asked for: the cell's price and every rule that applies. */
  function UnitPrice(b: Bundle, selections: Selections, price: real): real {
    price + SumOfRules(b.rules, selections)
  }

  lemma {:induction false} SumOfRulesInsert(a: seq<Rule>, rule: Rule, b: seq<Rule>, selections: Selections)
    ensures SumOfRules(a + [rule] + b, selections)
         == SumOfRules(a + b, selections) + if IsTriggered(rule, selections) then AmountOf(rule, selections) else 0.0
    decreases a
  {
    if a == [] {
      assert [] + [rule] + b == [rule] + b && [] + b == b;
    } else {
      assert (a + [rule] + b)[1..] == a[1..] + [rule] + b && (a + b)[1..] == a[1..] + b;
      SumOfRulesInsert(a[1..], rule, b, selections);
    }
  }

  /**
   The unit price in terms of the stored rules: it is the cell's price where there are none, and a rule,
   wherever it stands among them, adds the number in its table exactly when its trigger field is
   selected with its trigger value.
   */
  lemma RuleAddsItsAmount(
    b: Bundle, before: seq<Rule>, rule: Rule, after: seq<Rule>, selections: Selections, price: real)
    returns (amount: real)
    requires b.rules == before + [rule] + after
    ensures IsAmountFor(amount, rule, selections)
    ensures var isTriggered := rule.triggerField in selections && selections[rule.triggerField] == rule.triggerValue;
            UnitPrice(b, selections, price)
            == UnitPrice(b.(rules := before + after), selections, price) + if isTriggered then amount else 0.0
    ensures UnitPrice(b.(rules := []), selections, price) == price
  {
    amount := AmountOf(rule, selections);
    SumOfRulesInsert(before, rule, after, selections);
  }

  function BaseTotal(base: BaseOverride): real {
    base.amount + Sum(base.lines)
  }

  lemma TotalIsNear(price: real, lines: seq<Line>, q: int)
    ensures Abs(Round2(Times(price, q)) + Sum(Scaled(lines, q)) - Times(price + Sum(lines), q))
         <= 0.005 * (1 + |lines|) as real
  {
    RoundIsNear(Times(price, q));
    ScaledIsNear(lines, q);
    TimesDistributes(price, Sum(lines), q);
    hide Times, Round2, Sum, Scaled;
  }

  predicate AllWholePaise(price: real, lines: seq<Line>) {
    IsWholePaise(price) && forall l :: l in lines ==> IsWholePaise(l.amount)
  }

  lemma TotalIsExact(price: real, lines: seq<Line>, q: int)
    requires AllWholePaise(price, lines)
    ensures Round2(Times(price, q)) + Sum(Scaled(lines, q)) == Times(price + Sum(lines), q)
  {
    WholeTimes(price, q);
    ScaledIsExact(lines, q);
    TimesDistributes(price, Sum(lines), q);
  }

  /** A price in whole paise, as the column holds it, is never rounded: only the lines are. */
  lemma TotalIsNearForStoredPrice(price: real, lines: seq<Line>, q: int)
    requires IsWholePaise(price)
    ensures Abs(Round2(Times(price, q)) + Sum(Scaled(lines, q)) - Times(price + Sum(lines), q))
         <= 0.005 * |lines| as real
  {
    WholeTimes(price, q);
    ScaledIsNear(lines, q);
    TimesDistributes(price, Sum(lines), q);
    hide Times, Round2, Sum, Scaled;
  }

  /** The exact price of a quantity; one that is not at least 1 is charged as one unit. */
  ghost predicate IsExactPrice(x: real, unitPrice: real, quantity: int) {
    && (quantity >= 1 ==> x == unitPrice * quantity as real)
    && (quantity < 1 ==> x == unitPrice)
  }

  /** What is charged differs from the exact price by at most half a paisa for each of `n` amounts. */
  ghost predicate IsWithin(charged: real, unitPrice: real, quantity: int, n: nat) {
    exists exact :: IsExactPrice(exact, unitPrice, quantity) && Abs(charged - exact) <= 0.005 * n as real
  }

  lemma ChargedIsExact(unitPrice: real, quantity: int)
    ensures IsExactPrice(Times(unitPrice, Charged(quantity)), unitPrice, quantity)
  {
  }

  /**
   The base amount and the modifier lines together differ from the quantity times the unit price, or for
   a quantity below 1 from the unit price, by at most half a paisa for each of them, for a price as it is
   stored by at most half a paisa for each line, and by nothing when the unit amounts are whole paise.
   */
  lemma BaseIsNearlyExact(b: Bundle, selections: Selections, quantity: int, matrix: Resolution, lines: seq<Line>)
    requires MatrixBase(b, selections, quantity).Some?
    requires matrix == ResolveMatrixPrice(b.cells, b.tiers, selections, quantity)
    requires lines == LinesOf(b.rules, selections)
    ensures matrix.Priced? && ResolvePricingStrategyKey(b) == "matrix"
    ensures var charged := BaseTotal(MatrixBase(b, selections, quantity).value);
            var unitPrice := UnitPrice(b, selections, matrix.price);
            && IsWithin(charged, unitPrice, quantity, 1 + |lines|)
            && (IsWholePaise(matrix.price) ==> IsWithin(charged, unitPrice, quantity, |lines|))
            && (AllWholePaise(matrix.price, lines) ==> IsExactPrice(charged, unitPrice, quantity))
  {
    hide Sum, Scaled, Round2, LinesOf, SumOfRules, Abs, Times, AllWholePaise, IsWholePaise;
    hide ResolvePricingStrategyKey, ResolveMatrixPrice, IsExactPrice;
    LinesAddUp(b.rules, selections);
    ChargedIsExact(UnitPrice(b, selections, matrix.price), quantity);
    TotalIsNear(matrix.price, lines, Charged(quantity));
    if IsWholePaise(matrix.price) {
      TotalIsNearForStoredPrice(matrix.price, lines, Charged(quantity));
    }
    if AllWholePaise(matrix.price, lines) {
      TotalIsExact(matrix.price, lines, Charged(quantity));
    }
  }

  /**
   The matrix replaces the base price exactly when the strategy is the matrix and a cell gives a price.
   The amount, and each line under its own code and name, is then that of the quantity, to half a paisa.
   */
  lemma MatrixBaseIff(b: Bundle, selections: Selections, quantity: int, matrix: Resolution, lines: seq<Line>)
    requires matrix == ResolveMatrixPrice(b.cells, b.tiers, selections, quantity)
    requires lines == LinesOf(b.rules, selections)
    ensures MatrixBase(b, selections, quantity).Some? <==> ResolvePricingStrategyKey(b) == "matrix" && matrix.Priced?
    ensures MatrixBase(b, selections, quantity).Some? ==>
              var base := MatrixBase(b, selections, quantity).value;
              && base.tierQuantity == matrix.qtyBand && |base.lines| == |lines|
              && IsWithin(base.amount, matrix.price, quantity, 1)
              && forall i :: 0 <= i < |lines| ==>
                   && base.lines[i].code == lines[i].code && base.lines[i].name == lines[i].name
                   && IsWithin(base.lines[i].amount, lines[i].amount, quantity, 1)
  {
    hide ResolvePricingStrategyKey, ResolveMatrixPrice, LinesOf, IsWithin;
    if MatrixBase(b, selections, quantity).Some? {
      RoundedIsWithin(matrix.price, quantity);
      forall i | 0 <= i < |lines|
        ensures IsWithin(Round2(Times(lines[i].amount, Charged(quantity))), lines[i].amount, quantity, 1)
      {
        RoundedIsWithin(lines[i].amount, quantity);
      }
      hide Round2, Times, Charged;
    }
  }

  lemma RoundedIsWithin(unitPrice: real, quantity: int)
    ensures IsWithin(Round2(Times(unitPrice, Charged(quantity))), unitPrice, quantity, 1)
  {
    hide Round2, Times, Charged;
    ChargedIsExact(unitPrice, quantity);
    RoundIsNear(Times(unitPrice, Charged(quantity)));
  }

  /**
   Neither bound can be lowered: however many lines of half a paisa there are, they gain half a paisa
   each, and so does a price that is half a paisa off.
   */
  lemma BoundsAreReached(price: real, lines: seq<Line>)
    requires forall l :: l in lines ==> l.amount == 0.005
    ensures IsWholePaise(price) ==>
              Round2(Times(price, 1)) + Sum(Scaled(lines, 1)) - Times(price + Sum(lines), 1) == 0.005 * |lines| as real
    ensures IsWholePaise(price - 0.005) ==>
              Round2(Times(price, 1)) + Sum(Scaled(lines, 1)) - Times(price + Sum(lines), 1)
              == 0.005 * (1 + |lines|) as real
  {
    LinesReachBound(lines);
    TimesOne(price);
    TimesOne(price + Sum(lines));
    if IsWholePaise(price - 0.005) {
      HalfAPaisaRoundsUp(price);
    }
    hide Sum, Scaled, Times;
  }

  lemma TimesOne(x: real)
    ensures Times(x, 1) == x
  {
  }

  lemma HalfAPaisaRoundsUp(price: real)
    requires IsWholePaise(price - 0.005)
    ensures Round2(price) == price + 0.005
  {
    var n := ((price - 0.005) * 100.0 + 0.5).Floor;
    assert price * 100.0 + 0.5 == (n + 1) as real;
  }

  lemma {:induction false} LinesReachBound(lines: seq<Line>)
    requires forall l :: l in lines ==> l.amount == 0.005
    ensures Sum(Scaled(lines, 1)) - Sum(lines) == 0.005 * |lines| as real
    decreases lines
  {
    if lines != [] {
      var front, last := lines[..|lines| - 1], lines[|lines| - 1];
      assert last in lines;
      LinesReachBound(front);
      assert lines == front + [last];
      SumOfScaled(front, last, 1);
      assert 0.005 * 100.0 + 0.5 == 1.0;
    }
  }
}
