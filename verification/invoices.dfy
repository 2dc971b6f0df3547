/**
 The invoice record as the table sees it, the six sortable columns, and the
 comparator the table passes to `Array.prototype.sort`.
 */
module Invoices {
  import opened Wrappers

  /**
   One invoice row. Only the fields the table filters, sorts or shows are kept;
   the three amounts are whole numbers (for instance centavos).
   */
  datatype Invoice = Invoice(
    id: string,
    clientNumber: string,
    month: string,
    year: int,
    electricEnergyR: int,
    energySCEER: int,
    publicLightingR: int)

  /** The six clickable column headers. */
  datatype SortKey = ClientNumber | Month | Year | ElectricEnergyR | EnergySCEER | PublicLightingR

  datatype Direction = Asc | Desc

  /** The property name of a column, as it appears in the `sortKey` query parameter. */
  function KeyName(k: SortKey): string
  {
    match k
    case ClientNumber => "clientNumber"
    case Month => "month"
    case Year => "year"
    case ElectricEnergyR => "electricEnergyR"
    case EnergySCEER => "energySCEER"
    case PublicLightingR => "publicLightingR"
  }

  /** The column a `sortKey` text names, if any. */
  function ParseKey(s: string): (r: Option<SortKey>)
    ensures r.Some? ==> KeyName(r.value) == s
    ensures r.None? ==> forall k :: KeyName(k) != s
  {
    if s == "clientNumber" then Some(ClientNumber)
    else if s == "month" then Some(Month)
    else if s == "year" then Some(Year)
    else if s == "electricEnergyR" then Some(ElectricEnergyR)
    else if s == "energySCEER" then Some(EnergySCEER)
    else if s == "publicLightingR" then Some(PublicLightingR)
    else None
  }

  function DirectionName(d: Direction): string
  {
    match d
    case Asc => "asc"
    case Desc => "desc"
  }

  /** The direction a `sortDir` text names, if any. */
  function ParseDirection(s: string): (r: Option<Direction>)
    ensures r.Some? ==> DirectionName(r.value) == s
    ensures r.None? ==> forall d :: DirectionName(d) != s
  {
    if s == "asc" then Some(Asc) else if s == "desc" then Some(Desc) else None
  }

  /** Reading a column name back gives the column. */
  lemma ParseKeyName(k: SortKey)
    ensures ParseKey(KeyName(k)) == Some(k)
  {
  }

  /** Reading a direction name back gives the direction. */
  lemma ParseDirectionName(d: Direction)
    ensures ParseDirection(DirectionName(d)) == Some(d)
  {
  }

  /** A cell value of a sortable column: text columns hold strings, the others numbers. */
  datatype Field = Text(s: string) | Number(n: int)

  function FieldOf(k: SortKey, x: Invoice): Field
  {
    match k
    case ClientNumber => Text(x.clientNumber)
    case Month => Text(x.month)
    case Year => Number(x.year)
    case ElectricEnergyR => Number(x.electricEnergyR)
    case EnergySCEER => Number(x.energySCEER)
    case PublicLightingR => Number(x.publicLightingR)
  }

  /** JavaScript's `<` on strings: character by character, a proper prefix first. */
  predicate TextLess(a: string, b: string)
  {
    if |b| == 0 then false
    else if |a| == 0 then true
    else if a[0] != b[0] then a[0] < b[0]
    else TextLess(a[1..], b[1..])
  }

  /** JavaScript's `<` between two cells of one column. Cells of one column never mix kinds. */
  predicate Less(a: Field, b: Field)
  {
    match (a, b)
    case (Text(s), Text(t)) => TextLess(s, t)
    case (Number(m), Number(n)) => m < n
    case _ => false
  }

  /**
   The comparator handed to `sort`: negative when `a` must come first,
   positive when `b` must, zero when the two cells tie.
   */
  function Comparator(k: SortKey, d: Direction, a: Invoice, b: Invoice): int
  {
    var x := FieldOf(k, a);
    var y := FieldOf(k, b);
    if Less(x, y) then (if d == Asc then -1 else 1)
    else if Less(y, x) then (if d == Asc then 1 else -1)
    else 0
  }

  /** `a` may stand before `b` in a table sorted by `k` in direction `d`. */
  predicate InOrder(k: SortKey, d: Direction, a: Invoice, b: Invoice)
  {
    if d == Asc then !Less(FieldOf(k, b), FieldOf(k, a)) else !Less(FieldOf(k, a), FieldOf(k, b))
  }

  lemma {:induction false} TextLessIrreflexive(a: string)
    ensures !TextLess(a, a)
  {
    if |a| > 0 {
      TextLessIrreflexive(a[1..]);
    }
  }

  lemma {:induction false} TextLessAsymmetric(a: string, b: string)
    ensures TextLess(a, b) ==> !TextLess(b, a)
  {
    if |a| > 0 && |b| > 0 && a[0] == b[0] {
      TextLessAsymmetric(a[1..], b[1..]);
    }
  }

  lemma {:induction false} TextLessTransitive(a: string, b: string, c: string)
    requires TextLess(a, b) && TextLess(b, c)
    ensures TextLess(a, c)
  {
    if |a| > 0 && a[0] == b[0] && b[0] == c[0] {
      TextLessTransitive(a[1..], b[1..], c[1..]);
    }
  }

  /** Two different strings are ordered one way or the other. */
  lemma {:induction false} TextLessTotal(a: string, b: string)
    ensures a == b || TextLess(a, b) || TextLess(b, a)
  {
    if |a| > 0 && |b| > 0 && a[0] == b[0] {
      TextLessTotal(a[1..], b[1..]);
      if a[1..] == b[1..] {
        assert a == [a[0]] + a[1..] && b == [b[0]] + b[1..];
      }
    }
  }

  /** The comparator is antisymmetric, and it ties exactly the rows with equal cells. */
  lemma ComparatorSign(k: SortKey, d: Direction, a: Invoice, b: Invoice)
    ensures Comparator(k, d, a, b) == -Comparator(k, d, b, a)
    ensures Comparator(k, d, a, b) == 0 <==> FieldOf(k, a) == FieldOf(k, b)
    ensures Comparator(k, d, a, b) <= 0 <==> InOrder(k, d, a, b)
  {
    var x := FieldOf(k, a);
    var y := FieldOf(k, b);
    if x.Text? {
      TextLessAsymmetric(x.s, y.s);
      TextLessTotal(x.s, y.s);
      TextLessIrreflexive(x.s);
    }
  }

  /** Rows with equal cells tie. */
  lemma ComparatorTie(k: SortKey, d: Direction, a: Invoice, b: Invoice)
    ensures FieldOf(k, a) == FieldOf(k, b) ==> Comparator(k, d, a, b) == 0
  {
    if FieldOf(k, a).Text? {
      TextLessIrreflexive(FieldOf(k, a).s);
    }
  }

  /** A row that may precede another is not put strictly behind it. */
  lemma InOrderNotAhead(k: SortKey, d: Direction, a: Invoice, b: Invoice)
    requires InOrder(k, d, a, b)
    ensures Comparator(k, d, b, a) >= 0
  {
    if FieldOf(k, a).Text? {
      TextLessAsymmetric(FieldOf(k, a).s, FieldOf(k, b).s);
    }
  }

  /** A row strictly ahead of another, or one the other is not strictly ahead of, may stand before it. */
  lemma ComparatorOrder(k: SortKey, d: Direction, a: Invoice, b: Invoice)
    ensures Comparator(k, d, a, b) < 0 ==> InOrder(k, d, a, b)
    ensures Comparator(k, d, b, a) >= 0 ==> InOrder(k, d, a, b)
  {
    if FieldOf(k, a).Text? {
      TextLessAsymmetric(FieldOf(k, a).s, FieldOf(k, b).s);
    }
  }

  /** Sorted order is transitive. */
  lemma InOrderTransitive(k: SortKey, d: Direction, a: Invoice, b: Invoice, c: Invoice)
    requires InOrder(k, d, a, b) && InOrder(k, d, b, c)
    ensures InOrder(k, d, a, c)
  {
    var x, y, z := FieldOf(k, a), FieldOf(k, b), FieldOf(k, c);
    if x.Text? {
      TextLessTotal(x.s, y.s);
      TextLessTotal(y.s, z.s);
      if d == Asc && TextLess(z.s, x.s) {
        TextLessTransitive(z.s, x.s, y.s);
      }
      if d == Desc && TextLess(x.s, z.s) {
        TextLessTransitive(y.s, x.s, z.s);
      }
    }
  }

  /** Two rows that may each precede the other hold the same cell. */
  lemma InOrderAntisymmetric(k: SortKey, d: Direction, a: Invoice, b: Invoice)
    requires InOrder(k, d, a, b) && InOrder(k, d, b, a)
    ensures FieldOf(k, a) == FieldOf(k, b)
  {
    if FieldOf(k, a).Text? {
      TextLessTotal(FieldOf(k, a).s, FieldOf(k, b).s);
    }
  }
}
