/** The shopping-cart state manager of CarritoContext: an ordered sequence
    of cart lines kept in insertion order, the operations that change it,
    and the two derived sums.  Every operation is a pure transition from the
    previous cart to the next one, as the `setCarrito(prev => ...)` updaters
    are. */
module Cart {
  import opened Outcomes
  import opened Products

  /** One cart line: the product fields copied in, plus the quantity. */
  datatype Line = Line(id: int, producto: string, precio: int, cantidad: int)

  type Cart = seq<Line>

  /** Which notification `agregarAlCarrito` shows. */
  datatype AddNotice = AnotherUnit(name: string) | AddedNew(name: string)

  // ---------------------------------------------------------------------
  // Invariant
  // ---------------------------------------------------------------------

  predicate HasId(c: Cart, id: int) {
    exists i :: 0 <= i < |c| && c[i].id == id
  }

  predicate UniqueIds(c: Cart) {
    forall i, j :: 0 <= i < j < |c| ==> c[i].id != c[j].id
  }

  /** The cart invariant: no two lines share an id, and every quantity is
      at least one. */
  predicate Valid(c: Cart) {
    UniqueIds(c) && forall i :: 0 <= i < |c| ==> c[i].cantidad >= 1
  }

  // ---------------------------------------------------------------------
  // Derived sums
  // ---------------------------------------------------------------------

  function Subtotal(l: Line): int {
    l.precio * l.cantidad
  }

  /** Σ precio × cantidad over the lines. */
  function Total(c: Cart): int {
    if |c| == 0 then 0 else Subtotal(c[0]) + Total(c[1..])
  }

  /** Σ cantidad over the lines. */
  function Count(c: Cart): int {
    if |c| == 0 then 0 else c[0].cantidad + Count(c[1..])
  }

  lemma {:induction false} TotalAppend(a: Cart, b: Cart)
    ensures Total(a + b) == Total(a) + Total(b)
  {
    if |a| > 0 {
      assert (a + b)[1..] == a[1..] + b;
      TotalAppend(a[1..], b);
    } else {
      assert a + b == b;
    }
  }

  lemma {:induction false} CountAppend(a: Cart, b: Cart)
    ensures Count(a + b) == Count(a) + Count(b)
  {
    if |a| > 0 {
      assert (a + b)[1..] == a[1..] + b;
      CountAppend(a[1..], b);
    } else {
      assert a + b == b;
    }
  }

  /** In a valid cart the item count is at least the number of lines. */
  lemma {:induction false} CountAtLeastLines(c: Cart)
    requires Valid(c)
    ensures Count(c) >= |c|
  {
    if |c| > 0 {
      assert Valid(c[1..]) by {
        forall i, j | 0 <= i < j < |c| - 1 ensures c[1..][i].id != c[1..][j].id {
          assert c[1..][i] == c[i + 1] && c[1..][j] == c[j + 1];
        }
      }
      CountAtLeastLines(c[1..]);
    }
  }

  /** `calcularTotal`: the `reduce` from the left, starting at 0. */
  method CalcularTotal(c: Cart) returns (total: int)
    ensures total == Total(c)
  {
    total := 0;
    var i := 0;
    while i < |c|
      invariant 0 <= i <= |c|
      invariant total == Total(c[..i])
    {
      TotalAppend(c[..i], [c[i]]);
      assert c[..i + 1] == c[..i] + [c[i]];
      total := total + c[i].precio * c[i].cantidad;
      i := i + 1;
    }
    assert c[..i] == c;
  }

  /** `obtenerCantidadTotal`: the `reduce` from the left, starting at 0. */
  method ObtenerCantidadTotal(c: Cart) returns (count: int)
    ensures count == Count(c)
  {
    count := 0;
    var i := 0;
    while i < |c|
      invariant 0 <= i <= |c|
      invariant count == Count(c[..i])
    {
      CountAppend(c[..i], [c[i]]);
      assert c[..i + 1] == c[..i] + [c[i]];
      count := count + c[i].cantidad;
      i := i + 1;
    }
    assert c[..i] == c;
  }

  // ---------------------------------------------------------------------
  // Operations
  // ---------------------------------------------------------------------

  /** The line `{ ...producto, cantidad: 1 }`.  The spread also copies
      fields no cart operation reads (the category among them); the line
      keeps the ones the cart uses. */
  function NewLine(p: Product): Line {
    Line(p.id, p.producto, p.precio, 1)
  }

  /** `agregarAlCarrito`: if some line has the product's id, every such line
      gains one unit; otherwise the product is appended with quantity 1. */
  function Add(c: Cart, p: Product): (r: Cart)
    ensures HasId(c, p.id) ==> |r| == |c|
    ensures HasId(c, p.id) ==>
              forall i :: 0 <= i < |c| ==>
                && r[i].cantidad == (if c[i].id == p.id then c[i].cantidad + 1 else c[i].cantidad)
                && r[i].(cantidad := c[i].cantidad) == c[i]
    ensures !HasId(c, p.id) ==> r == c + [NewLine(p)]
  {
    if HasId(c, p.id) then
      seq(|c|, i requires 0 <= i < |c| =>
        if c[i].id == p.id then c[i].(cantidad := c[i].cantidad + 1) else c[i])
    else
      c + [NewLine(p)]
  }

  /** The notification chosen alongside `Add`; it names the product passed
      in, not the line already in the cart. */
  function Notice(c: Cart, p: Product): (n: AddNotice)
    ensures n.name == p.producto
    ensures n.AnotherUnit? <==> |Add(c, p)| == |c|
  {
    if HasId(c, p.id) then AnotherUnit(p.producto) else AddedNew(p.producto)
  }

  /** The text of the notification. */
  function NoticeText(n: AddNotice): string {
    match n
    case AnotherUnit(name) => "✅ Se agregó otra unidad de " + name
    case AddedNew(name) => "✅ " + name + " agregado al carrito"
  }

  /** `eliminarDelCarrito`: keep the lines whose id differs. */
  function Remove(c: Cart, id: int): (r: Cart)
    ensures |r| <= |c|
    ensures !HasId(r, id)
    ensures !HasId(c, id) ==> r == c
  {
    if |c| == 0 then []
    else
      var rest := Remove(c[1..], id);
      if c[0].id == id then rest
      else
        assert forall i :: 1 <= i < |c| ==> c[1..][i - 1] == c[i];
        assert forall i :: 1 <= i <= |rest| ==> ([c[0]] + rest)[i] == rest[i - 1];
        [c[0]] + rest
  }

  /** `Remove` keeps every line with another id and invents none. */
  lemma {:induction false} RemoveKeepsOthers(c: Cart, id: int)
    ensures forall i :: 0 <= i < |c| && c[i].id != id ==> c[i] in Remove(c, id)
    ensures forall l :: l in Remove(c, id) ==> l in c && l.id != id
  {
    if |c| > 0 {
      RemoveKeepsOthers(c[1..], id);
      assert forall i :: 1 <= i < |c| ==> c[1..][i - 1] == c[i];
    }
  }

  /** The quantity-setting map of `actualizarCantidad` for a positive
      quantity: every line with the id gets quantity `n`. */
  function SetQuantity(c: Cart, id: int, n: int): (r: Cart)
    ensures |r| == |c|
    ensures forall i :: 0 <= i < |c| ==>
              && r[i].cantidad == (if c[i].id == id then n else c[i].cantidad)
              && r[i].(cantidad := c[i].cantidad) == c[i]
  {
    seq(|c|, i requires 0 <= i < |c| =>
      if c[i].id == id then c[i].(cantidad := n) else c[i])
  }

  /** `actualizarCantidad`: a quantity of zero or less removes the line. */
  function Update(c: Cart, id: int, n: int): (r: Cart)
    ensures n <= 0 ==> r == Remove(c, id)
    ensures n > 0 ==> |r| == |c|
    ensures n > 0 ==> forall i :: 0 <= i < |c| ==>
              && r[i].cantidad == (if c[i].id == id then n else c[i].cantidad)
              && r[i].(cantidad := c[i].cantidad) == c[i]
    ensures !HasId(c, id) ==> r == c
  {
    if n <= 0 then Remove(c, id) else SetQuantity(c, id, n)
  }

  /** `vaciarCarrito`. */
  function Clear(): (r: Cart)
    ensures Valid(r) && Total(r) == 0 && Count(r) == 0
  {
    []
  }

  // ---------------------------------------------------------------------
  // Properties of the operations
  // ---------------------------------------------------------------------

  /** The index of the line with a given id in a valid cart. */
  lemma {:induction false} IndexOf(c: Cart, id: int) returns (k: nat)
    requires UniqueIds(c) && HasId(c, id)
    ensures k < |c| && c[k].id == id
    ensures forall i :: 0 <= i < |c| && i != k ==> c[i].id != id
  {
    k :| 0 <= k < |c| && c[k].id == id;
  }

  /** The sums of a cart split around one line. */
  lemma {:induction false} SumsAround(a: Cart, x: Line, b: Cart)
    ensures Total(a + [x] + b) == Total(a) + Subtotal(x) + Total(b)
    ensures Count(a + [x] + b) == Count(a) + x.cantidad + Count(b)
  {
    TotalAppend(a + [x], b);
    TotalAppend(a, [x]);
    CountAppend(a + [x], b);
    CountAppend(a, [x]);
    assert [x][1..] == [];
  }

  /** Replacing line `k` changes the total and count by the difference. */
  lemma {:induction false} ReplaceLine(c: Cart, k: nat, l: Line)
    requires k < |c|
    ensures Total(c[..k] + [l] + c[k + 1..]) == Total(c) - Subtotal(c[k]) + Subtotal(l)
    ensures Count(c[..k] + [l] + c[k + 1..]) == Count(c) - c[k].cantidad + l.cantidad
  {
    var a, b := c[..k], c[k + 1..];
    assert c == a + [c[k]] + b;
    SumsAround(a, c[k], b);
    SumsAround(a, l, b);
  }

  /** Replacing line `k` of a valid cart by a line with the same id and a
      positive quantity keeps the invariant. */
  lemma {:induction false} ReplaceLineValid(c: Cart, k: nat, l: Line)
    requires Valid(c) && k < |c| && l.id == c[k].id && l.cantidad >= 1
    ensures Valid(c[..k] + [l] + c[k + 1..])
  {
    var r := c[..k] + [l] + c[k + 1..];
    assert forall i :: 0 <= i < |r| && i != k ==> r[i] == c[i];
  }

  /** Adding a product whose id is present: only that line changes, by one
      unit; the count grows by one and the total by that line's price. */
  lemma {:induction false} AddExisting(c: Cart, p: Product) returns (k: nat)
    requires Valid(c) && HasId(c, p.id)
    ensures k < |c| && c[k].id == p.id
    ensures Add(c, p) == c[..k] + [c[k].(cantidad := c[k].cantidad + 1)] + c[k + 1..]
    ensures Valid(Add(c, p))
    ensures Count(Add(c, p)) == Count(c) + 1
    ensures Total(Add(c, p)) == Total(c) + c[k].precio
  {
    k := IndexOf(c, p.id);
    var l := c[k].(cantidad := c[k].cantidad + 1);
    assert Add(c, p) == c[..k] + [l] + c[k + 1..];
    ReplaceLine(c, k, l);
    ReplaceLineValid(c, k, l);
  }

  /** Adding a product with a new id appends one line of quantity 1; the
      count grows by one and the total by the product's price. */
  lemma {:induction false} AddFresh(c: Cart, p: Product)
    requires Valid(c) && !HasId(c, p.id)
    ensures Add(c, p)[..|c|] == c
    ensures Add(c, p)[|c|] == Line(p.id, p.producto, p.precio, 1)
    ensures Valid(Add(c, p))
    ensures Count(Add(c, p)) == Count(c) + 1
    ensures Total(Add(c, p)) == Total(c) + p.precio
  {
    var r := c + [NewLine(p)];
    assert Add(c, p) == r;
    SumsAround(c, NewLine(p), []);
    assert c + [NewLine(p)] + [] == r;
    assert forall i :: 0 <= i < |c| ==> r[i] == c[i];
  }

  /** `Add` keeps the invariant, whether the id was present or not, and
      always adds exactly one item. */
  lemma {:induction false} AddValid(c: Cart, p: Product)
    requires Valid(c)
    ensures Valid(Add(c, p))
    ensures Count(Add(c, p)) == Count(c) + 1
  {
    if HasId(c, p.id) {
      var _ := AddExisting(c, p);
    } else {
      AddFresh(c, p);
    }
  }

  /** `Remove` distributes over concatenation. */
  lemma {:induction false} RemoveAppend(a: Cart, b: Cart, id: int)
    ensures Remove(a + b, id) == Remove(a, id) + Remove(b, id)
  {
    if |a| == 0 {
      assert a + b == b;
    } else {
      assert (a + b)[1..] == a[1..] + b;
      RemoveAppend(a[1..], b, id);
    }
  }

  /** In a valid cart, the lines before and after the one with a given id
      do not carry that id. */
  lemma {:induction false} OthersLackId(c: Cart, k: nat)
    requires UniqueIds(c) && k < |c|
    ensures !HasId(c[..k], c[k].id) && !HasId(c[k + 1..], c[k].id)
  {
    assert forall i :: 0 <= i < k ==> c[..k][i] == c[i];
    assert forall i :: k + 1 <= i < |c| ==> c[k + 1..][i - k - 1] == c[i];
  }

  /** Deleting line `k` keeps the invariant. */
  lemma {:induction false} DeleteLineValid(c: Cart, k: nat)
    requires Valid(c) && k < |c|
    ensures Valid(c[..k] + c[k + 1..])
  {
    var r := c[..k] + c[k + 1..];
    assert forall i :: 0 <= i < k ==> r[i] == c[i];
    assert forall i :: k <= i < |r| ==> r[i] == c[i + 1];
  }

  /** Removing an id carried only by the middle line drops just that line. */
  lemma {:induction false} RemoveAround(a: Cart, x: Line, b: Cart)
    requires !HasId(a, x.id) && !HasId(b, x.id)
    ensures Remove(a + [x] + b, x.id) == a + b
  {
    var ax := a + [x];
    RemoveAppend(ax, b, x.id);
    RemoveAppend(a, [x], x.id);
    assert Remove([x], x.id) == [] by {
      assert [x][1..] == [];
    }
    assert Remove(ax, x.id) == a;
  }

  /** Removing a present id from a valid cart deletes exactly its line;
      the others keep their order, and the sums drop by that line. */
  lemma {:induction false} RemoveExisting(c: Cart, id: int) returns (k: nat)
    requires Valid(c) && HasId(c, id)
    ensures k < |c| && c[k].id == id
    ensures Remove(c, id) == c[..k] + c[k + 1..]
    ensures Valid(Remove(c, id))
    ensures Total(Remove(c, id)) == Total(c) - Subtotal(c[k])
    ensures Count(Remove(c, id)) == Count(c) - c[k].cantidad
  {
    k := IndexOf(c, id);
    var a, b := c[..k], c[k + 1..];
    assert c == a + [c[k]] + b;
    OthersLackId(c, k);
    RemoveAround(a, c[k], b);
    DeleteLineValid(c, k);
    SumsAround(a, c[k], b);
    TotalAppend(a, b);
    CountAppend(a, b);
  }

  /** A positive quantity for a present id: only that line's quantity
      changes; the invariant holds and the sums move by the difference. */
  lemma {:induction false} UpdateExisting(c: Cart, id: int, n: int) returns (k: nat)
    requires Valid(c) && HasId(c, id) && n > 0
    ensures k < |c| && c[k].id == id
    ensures Update(c, id, n) == c[..k] + [c[k].(cantidad := n)] + c[k + 1..]
    ensures Valid(Update(c, id, n))
    ensures Total(Update(c, id, n)) == Total(c) + c[k].precio * (n - c[k].cantidad)
    ensures Count(Update(c, id, n)) == Count(c) + (n - c[k].cantidad)
  {
    k := IndexOf(c, id);
    var l := c[k].(cantidad := n);
    assert Update(c, id, n) == c[..k] + [l] + c[k + 1..];
    ReplaceLine(c, k, l);
    ReplaceLineValid(c, k, l);
  }

  /** Every operation keeps the cart invariant. */
  lemma {:induction false} UpdateValid(c: Cart, id: int, n: int)
    requires Valid(c)
    ensures Valid(Update(c, id, n))
  {
    if HasId(c, id) {
      if n > 0 {
        var _ := UpdateExisting(c, id, n);
      } else {
        var _ := RemoveExisting(c, id);
      }
    }
  }

  // ---------------------------------------------------------------------
  // Scenarios
  // ---------------------------------------------------------------------

  function AddTimes(c: Cart, p: Product, k: nat): Cart {
    if k == 0 then c else Add(AddTimes(c, p, k - 1), p)
  }

  /** Adding the same product `k` times to an empty cart gives one line of
      quantity `k`: the count is `k` and the total `k` times the price. */
  lemma {:induction false} AddTimesFromEmpty(p: Product, k: nat)
    requires k >= 1
    ensures AddTimes([], p, k) == [Line(p.id, p.producto, p.precio, k)]
    ensures Count(AddTimes([], p, k)) == k
    ensures Total(AddTimes([], p, k)) == k * p.precio
  {
    if k > 1 {
      AddTimesFromEmpty(p, k - 1);
      var c := AddTimes([], p, k - 1);
      assert HasId(c, p.id);
      assert Add(c, p)[0] == Line(p.id, p.producto, p.precio, k);
    }
  }

  /** Two units of A (price 100) and one of B (price 50): three items for
      250; after removing A, one item for 50. */
  lemma {:induction false} ScenarioTwoProducts()
    ensures var a := Product(1, "A", 100, None);
            var b := Product(2, "B", 50, None);
            var c := Add(Add(Add([], a), a), b);
            Count(c) == 3 && Total(c) == 250
            && Count(Remove(c, 1)) == 1 && Total(Remove(c, 1)) == 50
  {
    var a := Product(1, "A", 100, None);
    var b := Product(2, "B", 50, None);
    var c1 := Add([], a);
    assert c1 == [Line(1, "A", 100, 1)];
    var c2 := Add(c1, a);
    assert c1[0].id == 1;
    assert c2 == [Line(1, "A", 100, 2)];
    var c3 := Add(c2, b);
    assert !HasId(c2, 2);
    assert Count(c2) == 2 && Total(c2) == 200;
    assert c3 == [Line(1, "A", 100, 2), Line(2, "B", 50, 1)];
    assert c3[1..] == [Line(2, "B", 50, 1)];
    assert c3[1..][1..] == [];
    assert Remove(c3, 1) == [Line(2, "B", 50, 1)];
    assert Remove(c3, 1)[1..] == [];
  }
}
