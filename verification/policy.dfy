/** Korral's replenishment rule and the checks on caller-supplied identifiers. */
module Policy {
  import opened Text

  const REPLENISHMENT_GAP_THRESHOLD_UNITS := 6

  datatype StockAssessment = OrderRequired | NoOrderRequired | NotStocked

  datatype StockPosition = StockPosition(
    storeId: string, sku: string, onHandUnits: Option<int>, posUnitsSold24h: int, posTransactionCount: nat)

  datatype ReplenishmentDecision = ReplenishmentDecision(
    assessment: StockAssessment, gapUnits: Option<int>, orderQuantityUnits: Option<int>, thresholdUnits: int)

  datatype PolicyError = InvalidRequest | NegativeStock

  /**
   * `re.match` of `^[0-9]{1,limit}$`: the dollar sign also matches before one
   * trailing newline.
   */
  predicate MatchesDigits(s: string, limit: nat) {
    var digits := if s != "" && s[|s| - 1] == '\n' then s[..|s| - 1] else s;
    1 <= |digits| <= limit && AllDigits(digits)
  }

  function ValidateId(raw: string, limit: nat): Result<string, PolicyError> {
    var candidate := Strip(raw);
    if MatchesDigits(candidate, limit) then Ok(candidate) else Err(InvalidRequest)
  }

  function ValidateStoreId(raw: string): Result<string, PolicyError> {
    ValidateId(raw, 10)
  }

  function ValidateSku(raw: string): Result<string, PolicyError> {
    ValidateId(raw, 20)
  }

  /** One to `limit` digits and nothing else. */
  predicate IsId(s: string, limit: nat) {
    1 <= |s| <= limit && AllDigits(s)
  }

  /**
   * Validation accepts exactly the padded spellings of an identifier and returns
   * it bare; stripping first closes the gap the dollar sign leaves.
   */
  lemma ValidateIdIff(raw: string, limit: nat)
    ensures ValidateId(raw, limit).Ok? <==> IsId(Strip(raw), limit)
    ensures ValidateId(raw, limit).Ok? ==> IsId(ValidateId(raw, limit).value, limit)
    ensures ValidateId(raw, limit).Ok? ==> ValidateId(ValidateId(raw, limit).value, limit) == ValidateId(raw, limit)
  {
    StripIsTrim(raw);
    var candidate := Strip(raw);
    if IsId(candidate, limit) {
      assert IsDigit(candidate[0]) && IsDigit(candidate[|candidate| - 1]);
      StripOfStripped(candidate);
    }
  }

  function ComputeGapUnits(onHandUnits: int, posUnitsSold24h: int): int {
    posUnitsSold24h - onHandUnits
  }

  predicate ExceedsThreshold(gapUnits: int) {
    gapUnits > REPLENISHMENT_GAP_THRESHOLD_UNITS
  }

  function OrderQuantityUnitsForGap(gapUnits: int): int {
    gapUnits
  }

  function Assess(p: StockPosition): Result<ReplenishmentDecision, PolicyError> {
    if p.onHandUnits.None? then
      Ok(ReplenishmentDecision(NotStocked, None, None, REPLENISHMENT_GAP_THRESHOLD_UNITS))
    else if p.onHandUnits.value < 0 then Err(NegativeStock)
    else
      var gap := ComputeGapUnits(p.onHandUnits.value, p.posUnitsSold24h);
      if ExceedsThreshold(gap) then
        Ok(ReplenishmentDecision(
             OrderRequired, Some(gap), Some(OrderQuantityUnitsForGap(gap)), REPLENISHMENT_GAP_THRESHOLD_UNITS))
      else
        Ok(ReplenishmentDecision(NoOrderRequired, Some(gap), None, REPLENISHMENT_GAP_THRESHOLD_UNITS))
  }

  /**
   * Negative stock is an error, unknown stock is a unit not stocked, and a known
   * one is judged by how far it is short of the sales: an order for the whole gap
   * when that is more than six units.
   */
  lemma AssessIff(p: StockPosition)
    ensures Assess(p).Err? <==> p.onHandUnits.Some? && p.onHandUnits.value < 0
    ensures Assess(p).Err? ==> Assess(p).error == NegativeStock
    ensures Assess(p).Ok? ==>
      var d := Assess(p).value;
      && d.thresholdUnits == 6
      && (d.assessment.NotStocked? <==> p.onHandUnits.None?) && (d.gapUnits.None? <==> p.onHandUnits.None?)
      && (p.onHandUnits.Some? ==> d.gapUnits.value + p.onHandUnits.value == p.posUnitsSold24h)
      && (d.assessment.OrderRequired? <==> p.onHandUnits.Some? && d.gapUnits.value > 6)
      && d.orderQuantityUnits == if d.assessment.OrderRequired? then d.gapUnits else None
  {
  }

  /** The quantity to order, when an order is required. */
  function OrderQuantity(p: StockPosition): Option<int> {
    var decision := Assess(p);
    if decision.Ok? && decision.value.assessment.OrderRequired? then decision.value.orderQuantityUnits else None
  }

  /**
   * An order of `q` units comes out exactly when stock is known, not negative,
   * and short of the day's sales by `q`, which is at least seven; ordering it
   * brings the shelf up to the day's sales.
   */
  lemma OrderQuantityIff(p: StockPosition, q: int)
    ensures OrderQuantity(p) == Some(q) <==>
            p.onHandUnits.Some? && p.onHandUnits.value >= 0 && q >= 7 && p.onHandUnits.value + q == p.posUnitsSold24h
  {
  }
}
