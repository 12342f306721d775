/** The points view's total: the sum of every entry's change over the whole ledger. */
module Ledger {
  import opened Records
  import opened Entities

  /** The sum of `change` over `points`, adding the entries in stored order. */
  function Total(points: seq<Point>): int {
    if points == [] then 0
    else Total(points[..|points| - 1]) + points[|points| - 1].fields.change
  }

  /** The total of a concatenation is the sum of the parts' totals. */
  lemma {:induction false} TotalAppend(a: seq<Point>, b: seq<Point>)
    ensures Total(a + b) == Total(a) + Total(b)
  {
    if b == [] {
      assert a + b == a;
    } else {
      var init := b[..|b| - 1];
      assert (a + b)[..|a + b| - 1] == a + init;
      TotalAppend(a, init);
    }
  }

  /** Replacing the entry at `k` moves the total by the difference of the two changes. */
  lemma TotalAfterReplace(points: seq<Point>, k: nat, p: Point)
    requires k < |points|
    ensures Total(points[k := p]) == Total(points) - points[k].fields.change + p.fields.change
  {
    var before, after := points[..k], points[k + 1..];
    assert points == (before + [points[k]]) + after;
    assert points[k := p] == (before + [p]) + after;
    TotalAppend(before + [points[k]], after);
    TotalAppend(before, [points[k]]);
    TotalAppend(before + [p], after);
    TotalAppend(before, [p]);
    assert [p][..0] == [] && [points[k]][..0] == [];
  }

  /** Creating an entry adds its change to the total. */
  lemma TotalAfterAppend(points: seq<Point>, p: Point)
    ensures Total(points + [p]) == Total(points) + p.fields.change
  {
  }

  /** With unique ids, deleting a present entry takes exactly its change off the total. */
  lemma TotalAfterDelete(points: seq<Point>, id: int)
    requires UniqueIds(points) && HasId(points, id)
    ensures Total(WithoutId(points, id)) == Total(points) - points[FirstIndex(points, id)].fields.change
  {
    var k := FirstIndex(points, id);
    var before, after := points[..k], points[k + 1..];
    WithoutIdUnique(points, id);
    assert points == (before + [points[k]]) + after;
    TotalAppend(before + [points[k]], after);
    TotalAppend(before, [points[k]]);
    TotalAppend(before, after);
    assert [points[k]][..0] == [];
  }

  /** Changes 4, -2 and 3 total 5; deleting the -2 entry leaves 7. */
  lemma TotalExample(date: string)
    ensures var ledger := [Record(1, PointFields(date, "A", "quiz", 4, "r", "t")),
                           Record(2, PointFields(date, "B", "late", -2, "r", "t")),
                           Record(3, PointFields(date, "C", "help", 3, "r", "t"))];
            Total(ledger) == 5 && Total(WithoutId(ledger, 2)) == 7
  {
    var a := Record(1, PointFields(date, "A", "quiz", 4, "r", "t"));
    var b := Record(2, PointFields(date, "B", "late", -2, "r", "t"));
    var c := Record(3, PointFields(date, "C", "help", 3, "r", "t"));
    TotalAppend([a, b], [c]);
    TotalAppend([a], [b]);
    assert [a, b] + [c] == [a, b, c];
    assert [a] + [b] == [a, b];
    assert [a][..0] == [] && [b][..0] == [] && [c][..0] == [];
    assert WithoutId([a, b, c], 2) == [a, c] by {
      assert [a, b, c][1..] == [b, c];
      assert [b, c][1..] == [c];
      assert [c][1..] == [];
    }
    TotalAppend([a], [c]);
    assert [a] + [c] == [a, c];
  }
}
