/** The distance-matrix response and `findSmallestDistance` (app/actions.ts): the
    smallest distance among the elements whose status is "OK", with the
    (origin, destination) position where it was found. */
module DistanceMatrix {
  import opened Types

  /** One matrix cell; `distanceValue` (metres) is only read when the status is "OK". */
  datatype Element = Element(status: string, distanceValue: nat)
  datatype Row = Row(elements: seq<Element>)
  datatype Response = Response(rows: seq<Row>)

  /** What `findSmallestDistance` returns: the distance, or `Infinite` with both
      indices -1 when no element is usable. */
  datatype Smallest = Smallest(distance: Distance, originIndex: int, destinationIndex: int)

  const NotFound := Smallest(Infinite, -1, -1)

  predicate IsOk(e: Element) {
    e.status == "OK"
  }

  /** `value < minDistance`, where an `Infinite` minimum is above every value. */
  predicate Below(value: nat, d: Distance) {
    match d
    case Infinite => true
    case Finite(m) => value < m
  }

  /** One iteration of the inner loop at position (i, j). */
  function Consider(acc: Smallest, e: Element, i: nat, j: nat): Smallest {
    if IsOk(e) && Below(e.distanceValue, acc.distance) then Smallest(Finite(e.distanceValue), i, j) else acc
  }

  /** The inner loop from column j to the end of row i. */
  function ScanRow(row: seq<Element>, i: nat, j: nat, acc: Smallest): Smallest
    requires j <= |row|
    decreases |row| - j
  {
    if j == |row| then acc else ScanRow(row, i, j + 1, Consider(acc, row[j], i, j))
  }

  /** The outer loop from row i to the last row. */
  function ScanRows(rows: seq<Row>, i: nat, acc: Smallest): Smallest
    requires i <= |rows|
    decreases |rows| - i
  {
    if i == |rows| then acc else ScanRows(rows, i + 1, ScanRow(rows[i].elements, i, 0, acc))
  }

  /** The value `findSmallestDistance` computes. */
  function SmallestDistance(response: Response): Smallest {
    ScanRows(response.rows, 0, NotFound)
  }

  /** `findSmallestDistance`: two nested loops over origins and destinations. */
  method FindSmallestDistance(response: Response) returns (r: Smallest)
    ensures r == SmallestDistance(response)
  {
    var rows := response.rows;
    var minDistance := Infinite;
    var minOrigin := -1;
    var minDestination := -1;
    var i := 0;
    while i < |rows|
      invariant 0 <= i <= |rows|
      invariant ScanRows(rows, i, Smallest(minDistance, minOrigin, minDestination)) == SmallestDistance(response)
    {
      var j := 0;
      while j < |rows[i].elements|
        invariant 0 <= j <= |rows[i].elements|
        invariant ScanRows(rows, i + 1, ScanRow(rows[i].elements, i, j, Smallest(minDistance, minOrigin, minDestination)))
          == SmallestDistance(response)
      {
        var element := rows[i].elements[j];
        if element.status == "OK" && Below(element.distanceValue, minDistance) {
          minDistance := Finite(element.distanceValue);
          minOrigin := i;
          minDestination := j;
        }
        j := j + 1;
      }
      i := i + 1;
    }
    r := Smallest(minDistance, minOrigin, minDestination);
  }

  // ---- What the scan computes ----

  predicate OkAt(rows: seq<Row>, a: int, b: int) {
    0 <= a < |rows| && 0 <= b < |rows[a].elements| && IsOk(rows[a].elements[b])
  }

  function ValueAt(rows: seq<Row>, a: int, b: int): nat
    requires OkAt(rows, a, b)
  {
    rows[a].elements[b].distanceValue
  }

  /** Position (a, b) comes before (i, j) in row-major order. */
  predicate Before(a: int, b: int, i: int, j: int) {
    a < i || (a == i && b < j)
  }

  /** `acc` is the first smallest OK element among the positions before (i, j), or
      NotFound when there is none. */
  ghost predicate FirstMinimumBefore(rows: seq<Row>, i: int, j: int, acc: Smallest) {
    if forall a, b :: OkAt(rows, a, b) ==> !Before(a, b, i, j) then acc == NotFound
    else
      acc.distance.Finite?
      && OkAt(rows, acc.originIndex, acc.destinationIndex)
      && Before(acc.originIndex, acc.destinationIndex, i, j)
      && ValueAt(rows, acc.originIndex, acc.destinationIndex) == acc.distance.metres
      && (forall a, b :: OkAt(rows, a, b) && Before(a, b, i, j) ==> acc.distance.metres <= ValueAt(rows, a, b))
      && (forall a, b :: OkAt(rows, a, b) && Before(a, b, acc.originIndex, acc.destinationIndex)
            ==> acc.distance.metres < ValueAt(rows, a, b))
  }

  lemma ConsiderStep(rows: seq<Row>, i: nat, j: nat, acc: Smallest)
    requires i < |rows| && j < |rows[i].elements|
    requires FirstMinimumBefore(rows, i, j, acc)
    ensures FirstMinimumBefore(rows, i, j + 1, Consider(acc, rows[i].elements[j], i, j))
  {
    var e := rows[i].elements[j];
    var acc' := Consider(acc, e, i, j);
    if !IsOk(e) {
      assert forall a, b :: OkAt(rows, a, b) ==> (Before(a, b, i, j + 1) <==> Before(a, b, i, j));
    } else if forall a, b :: OkAt(rows, a, b) ==> !Before(a, b, i, j) {
      assert OkAt(rows, i, j) && Before(i, j, i, j + 1);
    } else {
      assert OkAt(rows, i, j) && Before(i, j, i, j + 1);
    }
  }

  lemma {:induction false} ScanRowStep(rows: seq<Row>, i: nat, j: nat, acc: Smallest)
    requires i < |rows| && j <= |rows[i].elements|
    requires FirstMinimumBefore(rows, i, j, acc)
    ensures FirstMinimumBefore(rows, i + 1, 0, ScanRow(rows[i].elements, i, j, acc))
    decreases |rows[i].elements| - j
  {
    var row := rows[i].elements;
    if j == |row| {
      assert forall a, b :: OkAt(rows, a, b) ==> (Before(a, b, i + 1, 0) <==> Before(a, b, i, j));
    } else {
      ConsiderStep(rows, i, j, acc);
      ScanRowStep(rows, i, j + 1, Consider(acc, row[j], i, j));
    }
  }

  lemma {:induction false} ScanRowsStep(rows: seq<Row>, i: nat, acc: Smallest)
    requires i <= |rows|
    requires FirstMinimumBefore(rows, i, 0, acc)
    ensures FirstMinimumBefore(rows, |rows|, 0, ScanRows(rows, i, acc))
    decreases |rows| - i
  {
    if i < |rows| {
      ScanRowStep(rows, i, 0, acc);
      ScanRowsStep(rows, i + 1, ScanRow(rows[i].elements, i, 0, acc));
    }
  }

  /** The result is the smallest distance among the OK elements; its indices address
      an OK element holding that distance, the first one in row-major order when
      several tie; with no OK element it is Infinite with indices -1, -1. */
  lemma SmallestDistanceIsFirstMinimum(response: Response)
    ensures var r, rows := SmallestDistance(response), response.rows;
      ((forall a, b :: !OkAt(rows, a, b)) ==> r == Smallest(Infinite, -1, -1))
      && ((exists a, b :: OkAt(rows, a, b)) ==>
            r.distance.Finite?
            && OkAt(rows, r.originIndex, r.destinationIndex)
            && ValueAt(rows, r.originIndex, r.destinationIndex) == r.distance.metres
            && (forall a, b :: OkAt(rows, a, b) ==> r.distance.metres <= ValueAt(rows, a, b))
            && (forall a, b :: OkAt(rows, a, b) && Before(a, b, r.originIndex, r.destinationIndex)
                  ==> r.distance.metres < ValueAt(rows, a, b)))
  {
    var rows := response.rows;
    assert FirstMinimumBefore(rows, 0, 0, NotFound);
    ScanRowsStep(rows, 0, NotFound);
    assert forall a, b :: OkAt(rows, a, b) ==> Before(a, b, |rows|, 0);
  }
}
