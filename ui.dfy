/** The records table's ordering (scripts/ui.js): a sorted copy of the
    transactions by one field, ascending or descending. Text fields are
    compared with `localeCompare` at base sensitivity, which is a parameter
    here; the amount is compared by subtraction. */
module Ui {
  import opened Seqs
  import opened Ledger

  /** `sort.field`. */
  datatype SortField = DateField | AmountField | DescriptionField | CategoryField

  /** The string value of a text field; the date is stored as "YYYY-MM-DD". */
  function FieldText(t: Transaction, f: SortField): string
    requires f != AmountField
  {
    match f
    case DateField => DateString(t.date)
    case DescriptionField => t.description
    case CategoryField => t.category
  }

  /** What the comparator computes before the direction is applied. */
  function FieldCompare(f: SortField, localeCompare: (string, string) -> int, a: Transaction, b: Transaction): real {
    if f == AmountField then a.amount - b.amount
    else localeCompare(FieldText(a, f), FieldText(b, f)) as real
  }

  /** `sort.direction === "asc" ? result : -result`. */
  function Directed(direction: string, result: real): real {
    if direction == "asc" then result else -result
  }

  /** What a consistent string comparator promises: swapping the arguments
      flips the sign, and "not after" is transitive. */
  ghost predicate ConsistentCompare(cmp: (string, string) -> int) {
    && (forall a, b :: (cmp(a, b) < 0 <==> cmp(b, a) > 0) && (cmp(a, b) == 0 <==> cmp(b, a) == 0))
    && (forall a, b, c :: cmp(a, b) <= 0 && cmp(b, c) <= 0 ==> cmp(a, c) <= 0)
  }

  /** `a` may stay before `b`: the comparator does not put it after. */
  function NotAfter(f: SortField, direction: string, localeCompare: (string, string) -> int): (Transaction, Transaction) -> bool {
    (a: Transaction, b: Transaction) => Directed(direction, FieldCompare(f, localeCompare, a, b)) <= 0.0
  }

  /** `sortData`: `[...data].sort(comparator)`. */
  function SortData(data: seq<Transaction>, f: SortField, direction: string, localeCompare: (string, string) -> int): seq<Transaction> {
    Sort(data, NotAfter(f, direction, localeCompare))
  }

  /** A consistent string comparator makes the sort's order a total preorder
      in either direction. */
  lemma NotAfterPreorder(f: SortField, direction: string, cmp: (string, string) -> int)
    requires ConsistentCompare(cmp)
    ensures TotalPreorder(NotAfter(f, direction, cmp))
  {
    var le := NotAfter(f, direction, cmp);
    forall a, b ensures le(a, b) || le(b, a) {
      if f != AmountField {
        assert (cmp(FieldText(a, f), FieldText(b, f)) < 0 <==> cmp(FieldText(b, f), FieldText(a, f)) > 0);
      }
    }
    forall a, b, c | le(a, b) && le(b, c) ensures le(a, c) {
      if f != AmountField {
        var x, y, z := FieldText(a, f), FieldText(b, f), FieldText(c, f);
        if direction != "asc" {
          assert cmp(y, x) <= 0 && cmp(z, y) <= 0;
        }
      }
    }
  }

  /** The result is a permutation of the input, ordered by the field: never
      decreasing under "asc", never increasing otherwise. */
  lemma SortDataSpec(data: seq<Transaction>, f: SortField, direction: string, cmp: (string, string) -> int)
    requires ConsistentCompare(cmp)
    ensures var r := SortData(data, f, direction, cmp);
      && |r| == |data| && multiset(r) == multiset(data)
      && (direction == "asc" ==> forall i, j :: 0 <= i < j < |r| ==> FieldCompare(f, cmp, r[i], r[j]) <= 0.0)
      && (direction != "asc" ==> forall i, j :: 0 <= i < j < |r| ==> FieldCompare(f, cmp, r[i], r[j]) >= 0.0)
  {
    var le := NotAfter(f, direction, cmp);
    NotAfterPreorder(f, direction, cmp);
    SortSorted(data, le);
    var r := SortData(data, f, direction, cmp);
    forall i, j | 0 <= i < j < |r| ensures le(r[i], r[j]) {
    }
  }

  /** By amount, ascending, the amounts never decrease. */
  lemma AmountAscending(data: seq<Transaction>, cmp: (string, string) -> int)
    requires ConsistentCompare(cmp)
    ensures var r := SortData(data, AmountField, "asc", cmp);
      forall i, j :: 0 <= i < j < |r| ==> r[i].amount <= r[j].amount
  {
    SortDataSpec(data, AmountField, "asc", cmp);
  }
}
