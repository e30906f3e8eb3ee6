/**
 * The rows of the session log and the dashboard figures computed from them.
 *
 * A row is built from a successful reply with `dict.get` defaults
 * (app.py lines 67-73): the values found are copied as they are, whatever
 * their JSON type, and the category is not checked against the six names
 * the prompt lists (app.py line 36). The three dashboard figures are
 * recomputed from the rows on every render (app.py lines 81, 82 and 87).
 */
module Events {
  import opened Interpreter

  /** One row of the log: the columns Time, Item, Qty, Unit and Category. */
  datatype Event = Event(time: string, item: Json, qty: Json, unit: Json, category: Json)

  const ItemKey: string := "item"
  const QtyKey: string := "qty"
  const UnitKey: string := "unit"
  const CategoryKey: string := "cat"

  const UnknownItem: Json := JString("Unknown")
  const NoQuantity: Json := JInt(0)
  const NoUnit: Json := JString("-")
  const GeneralCategory: Json := JString("General")

  const Narcotic: string := "Narcotic"
  const CriticalEvent: string := "Critical Event"

  /** The categories the prompt asks the model to choose from (app.py line 36). */
  const PromptCategories: seq<string> :=
    ["Narcotic", "Vasoactive", "Induction", "Muscle Relaxant", "Critical Event", "Equipment"]

  /** Python's `d.get(key, default)`: the key looked up in `d` laid over a default entry. */
  function Get(d: Dict, key: string, default: Json): (v: Json)
    ensures v == (map[key := default] + d)[key]
  {
    if key in d then d[key] else default
  }

  /**
   * The new row for a successful reply, stamped with the wall-clock time
   * `now`. A key that is present is copied unchanged; a missing one gets
   * its default.
   */
  function NewRow(result: Dict, now: string): (e: Event)
    ensures e.time == now
    ensures ItemKey in result ==> e.item == result[ItemKey]
    ensures ItemKey !in result ==> e.item == UnknownItem
    ensures QtyKey in result ==> e.qty == result[QtyKey]
    ensures QtyKey !in result ==> e.qty == NoQuantity
    ensures UnitKey in result ==> e.unit == result[UnitKey]
    ensures UnitKey !in result ==> e.unit == NoUnit
    ensures CategoryKey in result ==> e.category == result[CategoryKey]
    ensures CategoryKey !in result ==> e.category == GeneralCategory
  {
    Event(now,
          Get(result, ItemKey, UnknownItem),
          Get(result, QtyKey, NoQuantity),
          Get(result, UnitKey, NoUnit),
          Get(result, CategoryKey, GeneralCategory))
  }

  /** The four interpreted fields of a row, under the keys the reply uses. */
  function RowFields(e: Event): Dict {
    map[ItemKey := e.item, QtyKey := e.qty, UnitKey := e.unit, CategoryKey := e.category]
  }

  const RowKeys: set<string> := {ItemKey, QtyKey, UnitKey, CategoryKey}

  const Defaults: Dict :=
    map[ItemKey := UnknownItem, QtyKey := NoQuantity, UnitKey := NoUnit, CategoryKey := GeneralCategory]

  /**
   * Defaulting is a map override: the row's fields are the defaults with
   * the reply's own values for the four keys laid over them. Keys other
   * than the four are ignored.
   */
  lemma DefaultingIsOverride(result: Dict, now: string)
    ensures RowFields(NewRow(result, now)) == Defaults + (map k | k in result && k in RowKeys :: result[k])
  {
    var e := NewRow(result, now);
    var overlay := map k | k in result && k in RowKeys :: result[k];
    var expected := Defaults + overlay;
    assert RowFields(e).Keys == RowKeys;
    assert expected.Keys == RowKeys;
    forall k | k in RowKeys ensures RowFields(e)[k] == expected[k] {
      if k in result {
        assert overlay[k] == result[k];
      } else {
        assert k !in overlay;
      }
    }
  }

  /**
   * A reply that names every field comes back unchanged from the row: the
   * row is a faithful copy of the reply restricted to the four keys.
   */
  lemma CompleteReplyRoundTrips(result: Dict, now: string)
    requires RowKeys <= result.Keys
    ensures RowFields(NewRow(result, now)) == map k | k in RowKeys :: result[k]
  {
    DefaultingIsOverride(result, now);
    var overlay := map k | k in result && k in RowKeys :: result[k];
    assert overlay.Keys == RowKeys;
    assert Defaults + overlay == overlay;
  }

  /**
   * A category outside the prompt's six is recorded as given, not replaced by
   * "General". It is a special case of `NewRow`'s ensures, which copy any
   * present `cat` unchanged: the prompt's list is not enforced.
   */
  lemma UnlistedCategoryIsKept(result: Dict, now: string)
    requires CategoryKey in result
    requires forall c :: c in PromptCategories ==> result[CategoryKey] != JString(c)
    ensures NewRow(result, now).category == result[CategoryKey]
    ensures result[CategoryKey] != GeneralCategory ==> NewRow(result, now).category != GeneralCategory
  {
  }

  // ---------------------------------------------------------------------
  // Dashboard figures

  /** `logs[logs['Category'] == name]`: the rows of one category. */
  function Select(rows: seq<Event>, name: string): (r: seq<Event>)
    ensures |r| <= |rows|
    ensures forall e: Event :: e in r ==> e.category == JString(name)
    ensures forall e: Event :: e.category == JString(name) ==> multiset(r)[e] == multiset(rows)[e]
  {
    if rows == [] then
      []
    else
      assert rows == [rows[0]] + rows[1..];
      (if rows[0].category == JString(name) then [rows[0]] else []) + Select(rows[1..], name)
  }

  /** The amount a Qty cell adds to a sum; only integral JSON numbers are modelled. */
  function QtyAmount(qty: Json): int {
    if qty.JInt? then qty.n else 0
  }

  /** `['Qty'].sum()`: an empty column sums to 0, and no negative quantity means no negative sum. */
  function SumQty(rows: seq<Event>): (total: int)
    ensures (forall e :: e in rows ==> QtyAmount(e.qty) >= 0) ==> total >= 0
  {
    if rows == [] then 0 else QtyAmount(rows[0].qty) + SumQty(rows[1..])
  }

  /**
   * "Narcotics Used": the sum of Qty over the Narcotic rows (app.py line 81).
   * Quantities of other categories do not matter: when no Narcotic dose is
   * negative, neither is the figure.
   */
  function NarcoticSum(rows: seq<Event>): (total: int)
    ensures (forall e :: e in rows && e.category == JString(Narcotic) ==> QtyAmount(e.qty) >= 0) ==> total >= 0
  {
    var selected := Select(rows, Narcotic);
    assert forall e :: e in selected ==> e in rows by {
      forall e | e in selected ensures e in rows {
        assert multiset(selected)[e] == multiset(rows)[e];
      }
    }
    SumQty(selected)
  }

  /** "Critical Events": how many rows are Critical Event rows (app.py line 82); never more than the total. */
  function CriticalCount(rows: seq<Event>): (n: nat)
    ensures n <= TotalCount(rows)
  {
    |Select(rows, CriticalEvent)|
  }

  /** "Total Logs": the number of rows (app.py line 87); no category has more rows than that. */
  function TotalCount(rows: seq<Event>): (n: nat)
    ensures forall name :: |Select(rows, name)| <= n
  {
    |rows|
  }

  lemma {:induction false} SumQtyConcat(a: seq<Event>, b: seq<Event>)
    ensures SumQty(a + b) == SumQty(a) + SumQty(b)
    decreases |a|
  {
    if a == [] {
      assert a + b == b;
    } else {
      assert (a + b)[1..] == a[1..] + b;
      SumQtyConcat(a[1..], b);
    }
  }

  lemma {:induction false} SelectConcat(a: seq<Event>, b: seq<Event>, name: string)
    ensures Select(a + b, name) == Select(a, name) + Select(b, name)
    decreases |a|
  {
    if a == [] {
      assert a + b == b;
    } else {
      assert (a + b)[0] == a[0];
      assert (a + b)[1..] == a[1..] + b;
      SelectConcat(a[1..], b, name);
    }
  }

  /** The Narcotics figure of two stretches of log is the sum of their figures. */
  lemma NarcoticSumConcat(a: seq<Event>, b: seq<Event>)
    ensures NarcoticSum(a + b) == NarcoticSum(a) + NarcoticSum(b)
  {
    SelectConcat(a, b, Narcotic);
    SumQtyConcat(Select(a, Narcotic), Select(b, Narcotic));
  }

  /** The Narcotics figure of a log is that of its first row plus that of the rest. */
  lemma NarcoticSumFront(rows: seq<Event>)
    requires rows != []
    ensures NarcoticSum(rows) == NarcoticSum([rows[0]]) + NarcoticSum(rows[1..])
  {
    assert [rows[0]] + rows[1..] == rows;
    NarcoticSumConcat([rows[0]], rows[1..]);
  }

  /** The Critical Events figure of two stretches of log is the sum of their figures. */
  lemma CriticalCountConcat(a: seq<Event>, b: seq<Event>)
    ensures CriticalCount(a + b) == CriticalCount(a) + CriticalCount(b)
  {
    SelectConcat(a, b, CriticalEvent);
  }

  /** The Critical Events figure of a log is that of its first row plus that of the rest. */
  lemma CriticalCountFront(rows: seq<Event>)
    requires rows != []
    ensures CriticalCount(rows) == CriticalCount([rows[0]]) + CriticalCount(rows[1..])
  {
    assert [rows[0]] + rows[1..] == rows;
    CriticalCountConcat([rows[0]], rows[1..]);
  }

  /**
   * Recording a row changes the Narcotics figure by that row's Qty when the
   * row is a Narcotic row, and leaves it unchanged otherwise.
   */
  lemma NarcoticSumRecord(e: Event, rows: seq<Event>)
    ensures e.category == JString(Narcotic) ==> NarcoticSum([e] + rows) == NarcoticSum(rows) + QtyAmount(e.qty)
    ensures e.category != JString(Narcotic) ==> NarcoticSum([e] + rows) == NarcoticSum(rows)
  {
    NarcoticSumConcat([e], rows);
    assert [e][1..] == [];
  }

  /**
   * Recording a row adds one to the Critical Events figure when the row is
   * a Critical Event row, and leaves it unchanged otherwise.
   */
  lemma CriticalCountRecord(e: Event, rows: seq<Event>)
    ensures e.category == JString(CriticalEvent) ==> CriticalCount([e] + rows) == CriticalCount(rows) + 1
    ensures e.category != JString(CriticalEvent) ==> CriticalCount([e] + rows) == CriticalCount(rows)
  {
    CriticalCountConcat([e], rows);
    assert [e][1..] == [];
  }

  /** With no Narcotic row the Narcotics figure is 0. */
  lemma {:induction false} NoNarcoticsSumToZero(rows: seq<Event>)
    requires forall i :: 0 <= i < |rows| ==> rows[i].category != JString(Narcotic)
    ensures NarcoticSum(rows) == 0
    decreases |rows|
  {
    if rows != [] {
      assert rows == [rows[0]] + rows[1..];
      NarcoticSumRecord(rows[0], rows[1..]);
      NoNarcoticsSumToZero(rows[1..]);
    }
  }
}
