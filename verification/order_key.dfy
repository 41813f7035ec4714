/** The readable idempotency key of a replenishment order. */
module OrderKey {
  import opened Text
  import opened Policy

  /** A plain calendar date as `date.isoformat()` writes it. */
  predicate IsIsoDate(s: string) {
    |s| == 10 && forall i | 0 <= i < 10 :: if i == 4 || i == 7 then s[i] == '-' else IsDigit(s[i])
  }

  /** What a key is made of. */
  datatype KeyFields = KeyFields(storeId: string, sku: string, quantity: int, date: string)
  {
    predicate Valid() {
      IsId(storeId, 10) && IsId(sku, 20) && IsIsoDate(date)
    }
  }

  function ReplenishmentKey(f: KeyFields): string {
    "replenishment:v1:store=" + f.storeId + ":sku=" + f.sku + ":qty=" + DecimalInt(f.quantity) + ":date=" + f.date
  }

  /** The key's six colon-separated parts. */
  function KeyParts(f: KeyFields): seq<string> {
    ["replenishment", "v1", "store=" + f.storeId, "sku=" + f.sku, "qty=" + DecimalInt(f.quantity), "date=" + f.date]
  }

  /** Read a key back, by the places its colons give. */
  function ParseKey(key: string): Option<KeyFields> {
    var parts := Split(key, ':');
    if |parts| == 6 && "store=" <= parts[2] && "sku=" <= parts[3] && "qty=" <= parts[4] && "date=" <= parts[5]
       && IsInteger(parts[4][4..])
    then Some(KeyFields(parts[2][6..], parts[3][4..], ValueInt(parts[4][4..]), parts[5][5..]))
    else None
  }

  lemma JoinSix(a: string, b: string, c: string, d: string, e: string, f: string, sep: char)
    ensures Join([a, b, c, d, e, f], sep) == a + [sep] + b + [sep] + c + [sep] + d + [sep] + e + [sep] + f
  {
    JoinStep(e, [f], sep);
    JoinStep(d, [e, f], sep);
    JoinStep(c, [d, e, f], sep);
    JoinStep(b, [c, d, e, f], sep);
    JoinStep(a, [b, c, d, e, f], sep);
    assert [a] + ([b] + ([c] + ([d] + ([e] + [f])))) == [a, b, c, d, e, f];
  }

  lemma KeyIsJoined(f: KeyFields)
    ensures ReplenishmentKey(f) == Join(KeyParts(f), ':')
  {
    JoinSix("replenishment", "v1", "store=" + f.storeId, "sku=" + f.sku, "qty=" + DecimalInt(f.quantity),
            "date=" + f.date, ':');
  }

  lemma DigitsHaveNoColon(s: string)
    requires AllDigits(s) || IsIsoDate(s)
    ensures ':' !in s
  {
  }

  lemma PartsHaveNoColon(f: KeyFields)
    requires f.Valid()
    ensures forall p | p in KeyParts(f) :: ':' !in p
  {
    DecimalIntRoundTrip(f.quantity);
    DecimalRoundTrip(if f.quantity < 0 then -f.quantity else f.quantity);
    DigitsHaveNoColon(f.storeId);
    DigitsHaveNoColon(f.sku);
    DigitsHaveNoColon(Decimal(if f.quantity < 0 then -f.quantity else f.quantity));
    DigitsHaveNoColon(f.date);
  }

  /** A key can be read back to exactly what it was derived from. */
  lemma KeyRoundTrip(f: KeyFields)
    requires f.Valid()
    ensures ParseKey(ReplenishmentKey(f)) == Some(f)
  {
    KeyIsJoined(f);
    PartsHaveNoColon(f);
    SplitOfJoin(KeyParts(f), ':');
    DecimalIntRoundTrip(f.quantity);
    var parts := KeyParts(f);
    assert parts[2][6..] == f.storeId && parts[3][4..] == f.sku;
    assert parts[4][4..] == DecimalInt(f.quantity) && parts[5][5..] == f.date;
  }

  /** Two orders share a key exactly when they agree in every field. */
  lemma KeyInjective(f: KeyFields, g: KeyFields)
    requires f.Valid() && g.Valid()
    ensures ReplenishmentKey(f) == ReplenishmentKey(g) <==> f == g
  {
    KeyRoundTrip(f);
    KeyRoundTrip(g);
  }

  /** The key carries no blank ends, so the store's own check accepts it. */
  lemma KeyIsNotBlank(f: KeyFields)
    ensures ReplenishmentKey(f) != "" && Strip(ReplenishmentKey(f)) != ""
  {
    var key := ReplenishmentKey(f);
    assert key[0] == 'r';
    assert StripLeft(key) == key;
    StripRightParts(key);
    assert key[|StripRight(key)|..] != key || !AllSpace(key);
  }

  /** Without validation, two different orders can meet in one key. */
  lemma UnvalidatedKeysCollide()
    ensures exists f, g: KeyFields :: f != g && ReplenishmentKey(f) == ReplenishmentKey(g)
  {
    var f := KeyFields("1:sku=2", "3", 7, "2026-01-01");
    var g := KeyFields("1", "2:sku=3", 7, "2026-01-01");
    assert f.storeId + ":sku=" + f.sku == "1:sku=2:sku=3" == g.storeId + ":sku=" + g.sku;
    var tail := ":qty=" + DecimalInt(7) + ":date=" + "2026-01-01";
    assert ReplenishmentKey(f) == "replenishment:v1:store=" + (f.storeId + ":sku=" + f.sku) + tail;
    assert ReplenishmentKey(g) == "replenishment:v1:store=" + (g.storeId + ":sku=" + g.sku) + tail;
  }
}
