/** The menu page of Main.jsx: the price-sorted product rows fetched from
    the store are grouped by category name (the `reduce` inside
    `cargarProductos`), and the page shows an error, a loading indicator or
    the grouped menu. */
module Catalog {
  import opened Outcomes
  import opened Products

  /** One category section: its name and its products, in fetch order.
      The sequence of groups stands for the object `acc` of the `reduce`,
      whose string keys enumerate in insertion order. */
  datatype Group = Group(categoria: string, productos: seq<Product>)

  /** What the store query returned. */
  datatype Fetch = Rows(data: seq<Product>) | Failed(message: string)

  /** The component state: the groups, the loading flag and the error
      message (None while `error` is null). */
  datatype MainState = MainState(categorias: seq<Group>, isLoading: bool, error: Option<string>)

  /** What the page renders. */
  datatype View = ShowError(message: string) | ShowLoading | ShowMenu(groups: seq<Group>)

  /** The message of the TypeError raised by reading `.categoria` of a null
      `Categoria`, as the V8 engine words it. */
  const NullCategoriaMessage: string := "Cannot read properties of null (reading 'categoria')"

  // ---------------------------------------------------------------------
  // Grouping
  // ---------------------------------------------------------------------

  predicate Categorised(ps: seq<Product>) {
    forall i :: 0 <= i < |ps| ==> ps[i].categoria.Some?
  }

  /** The position of the group named `k`, or |gs| when there is none. */
  function Find(gs: seq<Group>, k: string): (r: nat)
    ensures r <= |gs|
    ensures r < |gs| ==> gs[r].categoria == k
    ensures forall j :: 0 <= j < r ==> gs[j].categoria != k
  {
    if |gs| == 0 then 0
    else if gs[0].categoria == k then 0
    else 1 + Find(gs[1..], k)
  }

  /** One step of the `reduce`: push the product onto its category's group,
      opening the group first if the category is new. */
  function Step(gs: seq<Group>, p: Product): seq<Group>
    requires p.categoria.Some?
  {
    var k := p.categoria.value;
    var r := Find(gs, k);
    if r < |gs| then gs[r := Group(k, gs[r].productos + [p])]
    else gs + [Group(k, [p])]
  }

  /** The `reduce` over a fully categorised list, from the left. */
  function Grouped(ps: seq<Product>): seq<Group>
    requires Categorised(ps)
  {
    if |ps| == 0 then []
    else Step(Grouped(ps[..|ps| - 1]), ps[|ps| - 1])
  }

  /** The grouping as the page runs it: a product with a null category makes
      the `reduce` throw, which fails the whole load. */
  function GroupByCategory(ps: seq<Product>): (r: Result<seq<Group>, string>)
    ensures r.Ok? <==> Categorised(ps)
    ensures r.Err? ==> r.error == NullCategoriaMessage
    ensures r.Ok? ==> Categorised(ps) && Describes(r.value, ps)
  {
    if Categorised(ps) then GroupedDescribes(ps); Ok(Grouped(ps)) else Err(NullCategoriaMessage)
  }

  // ---------------------------------------------------------------------
  // The independent description of the grouping
  // ---------------------------------------------------------------------

  /** The products of category `k`, in list order. */
  function Filter(ps: seq<Product>, k: string): seq<Product> {
    if |ps| == 0 then []
    else Filter(ps[..|ps| - 1], k) + (if ps[|ps| - 1].categoria == Some(k) then [ps[|ps| - 1]] else [])
  }

  /** The category names in order of first appearance. */
  function FirstSeen(ps: seq<Product>): seq<string>
    requires Categorised(ps)
  {
    if |ps| == 0 then []
    else
      var prev := FirstSeen(ps[..|ps| - 1]);
      var k := ps[|ps| - 1].categoria.value;
      if k in prev then prev else prev + [k]
  }

  function Keys(gs: seq<Group>): (ks: seq<string>)
    ensures |ks| == |gs|
    ensures forall i :: 0 <= i < |gs| ==> ks[i] == gs[i].categoria
  {
    seq(|gs|, i requires 0 <= i < |gs| => gs[i].categoria)
  }

  function SumSizes(gs: seq<Group>): nat {
    if |gs| == 0 then 0 else SumSizes(gs[..|gs| - 1]) + |gs[|gs| - 1].productos|
  }

  /** The grouping is exactly "one group per category, in first-seen order,
      each holding the list filtered to that category". */
  predicate Describes(gs: seq<Group>, ps: seq<Product>)
    requires Categorised(ps)
  {
    && Keys(gs) == FirstSeen(ps)
    && (forall i :: 0 <= i < |gs| ==> gs[i].productos == Filter(ps, gs[i].categoria))
    && (forall i :: 0 <= i < |gs| ==> |gs[i].productos| > 0)
    && SumSizes(gs) == |ps|
  }

  lemma {:induction false} CategorisedPrefix(ps: seq<Product>, n: nat)
    requires Categorised(ps) && n <= |ps|
    ensures Categorised(ps[..n])
  {
    assert forall i :: 0 <= i < n ==> ps[..n][i] == ps[i];
  }

  /** A category that was never seen has an empty filter. */
  lemma {:induction false} FilterUnseen(ps: seq<Product>, k: string)
    requires Categorised(ps) && k !in FirstSeen(ps)
    ensures Filter(ps, k) == []
  {
    if |ps| > 0 {
      var init := ps[..|ps| - 1];
      CategorisedPrefix(ps, |ps| - 1);
      FilterUnseen(init, k);
    }
  }

  /** Every first-seen category has a product. */
  lemma {:induction false} FirstSeenOccurs(ps: seq<Product>, k: string)
    requires Categorised(ps) && k in FirstSeen(ps)
    ensures Filter(ps, k) != []
  {
    var init := ps[..|ps| - 1];
    CategorisedPrefix(ps, |ps| - 1);
    if k in FirstSeen(init) {
      FirstSeenOccurs(init, k);
    }
  }

  lemma {:induction false} SumSizesUpdate(gs: seq<Group>, r: nat, g: Group)
    requires r < |gs|
    ensures SumSizes(gs[r := g]) == SumSizes(gs) - |gs[r].productos| + |g.productos|
    decreases |gs|
  {
    if r < |gs| - 1 {
      assert gs[r := g][..|gs| - 1] == gs[..|gs| - 1][r := g];
      SumSizesUpdate(gs[..|gs| - 1], r, g);
    } else {
      assert gs[r := g][..|gs| - 1] == gs[..|gs| - 1];
    }
  }

  lemma {:induction false} SumSizesAppend(gs: seq<Group>, g: Group)
    ensures SumSizes(gs + [g]) == SumSizes(gs) + |g.productos|
  {
    assert (gs + [g])[..|gs|] == gs;
  }

  lemma {:induction false} FilterSnoc(ps: seq<Product>, p: Product, k: string)
    ensures Filter(ps + [p], k) == Filter(ps, k) + (if p.categoria == Some(k) then [p] else [])
  {
    assert (ps + [p])[..|ps|] == ps;
  }

  lemma {:induction false} FirstSeenSnoc(ps: seq<Product>, p: Product)
    requires Categorised(ps) && p.categoria.Some?
    ensures Categorised(ps + [p])
    ensures FirstSeen(ps + [p]) ==
            if p.categoria.value in FirstSeen(ps) then FirstSeen(ps) else FirstSeen(ps) + [p.categoria.value]
  {
    assert (ps + [p])[..|ps|] == ps;
  }

  /** Renaming nothing: replacing a group by one of the same name keeps the
      key list. */
  lemma {:induction false} KeysUpdate(gs: seq<Group>, r: nat, g: Group)
    requires r < |gs| && g.categoria == gs[r].categoria
    ensures Keys(gs[r := g]) == Keys(gs)
  {
  }

  /** Distinct keys: the only group named after `gs[r]` is `gs[r]`. */
  lemma {:induction false} OtherGroupsDiffer(gs: seq<Group>, ps: seq<Product>, r: nat, i: nat)
    requires Categorised(ps) && Keys(gs) == FirstSeen(ps)
    requires r < |gs| && i < |gs| && i != r
    ensures gs[i].categoria != gs[r].categoria
  {
    FirstSeenDistinct(ps);
    assert Keys(gs)[i] == gs[i].categoria && Keys(gs)[r] == gs[r].categoria;
    if i < r {
      assert FirstSeen(ps)[i] != FirstSeen(ps)[r];
    } else {
      assert FirstSeen(ps)[r] != FirstSeen(ps)[i];
    }
  }

  /** A step onto an existing group appends to that group only. */
  lemma {:induction false} StepExisting(gs: seq<Group>, ps: seq<Product>, p: Product)
    requires Categorised(ps) && p.categoria.Some? && Describes(gs, ps)
    requires Find(gs, p.categoria.value) < |gs|
    ensures Categorised(ps + [p])
    ensures Describes(Step(gs, p), ps + [p])
  {
    var k := p.categoria.value;
    var r := Find(gs, k);
    var g := Group(k, gs[r].productos + [p]);
    var gs' := gs[r := g];
    assert Step(gs, p) == gs';
    assert k in FirstSeen(ps) by { assert Keys(gs)[r] == k; }
    FirstSeenSnoc(ps, p);
    KeysUpdate(gs, r, g);
    forall i | 0 <= i < |gs'| ensures gs'[i].productos == Filter(ps + [p], gs'[i].categoria) {
      FilterSnoc(ps, p, gs'[i].categoria);
      if i != r {
        OtherGroupsDiffer(gs, ps, r, i);
      }
    }
    SumSizesUpdate(gs, r, g);
  }

  /** A step with a new category opens one group at the end. */
  lemma {:induction false} StepNew(gs: seq<Group>, ps: seq<Product>, p: Product)
    requires Categorised(ps) && p.categoria.Some? && Describes(gs, ps)
    requires Find(gs, p.categoria.value) == |gs|
    ensures Categorised(ps + [p])
    ensures Describes(Step(gs, p), ps + [p])
  {
    var k := p.categoria.value;
    var g := Group(k, [p]);
    var gs' := gs + [g];
    assert Step(gs, p) == gs';
    assert k !in FirstSeen(ps) by {
      forall j | 0 <= j < |gs| ensures Keys(gs)[j] != k {
        assert Keys(gs)[j] == gs[j].categoria;
      }
    }
    FilterUnseen(ps, k);
    FirstSeenSnoc(ps, p);
    KeysAppend(gs, g);
    forall i | 0 <= i < |gs'| ensures gs'[i].productos == Filter(ps + [p], gs'[i].categoria) {
      FilterSnoc(ps, p, gs'[i].categoria);
      if i < |gs| {
        assert gs'[i] == gs[i];
      }
    }
    SumSizesAppend(gs, g);
  }

  lemma {:induction false} KeysAppend(gs: seq<Group>, g: Group)
    ensures Keys(gs + [g]) == Keys(gs) + [g.categoria]
  {
    assert forall i :: 0 <= i < |gs| ==> (gs + [g])[i] == gs[i];
  }

  /** One `reduce` step keeps the description. */
  lemma {:induction false} StepDescribes(gs: seq<Group>, ps: seq<Product>, p: Product)
    requires Categorised(ps) && p.categoria.Some? && Describes(gs, ps)
    ensures Categorised(ps + [p])
    ensures Describes(Step(gs, p), ps + [p])
  {
    if Find(gs, p.categoria.value) < |gs| {
      StepExisting(gs, ps, p);
    } else {
      StepNew(gs, ps, p);
    }
  }

  /** The `reduce` computes exactly the described grouping: every product
      lands in the group of its category, groups follow first appearance,
      each group is the input filtered to its category (so the price order
      is kept inside it), no group is empty, and the sizes add up. */
  lemma {:induction false} GroupedDescribes(ps: seq<Product>)
    requires Categorised(ps)
    ensures Describes(Grouped(ps), ps)
  {
    if |ps| > 0 {
      var init := ps[..|ps| - 1];
      CategorisedPrefix(ps, |ps| - 1);
      GroupedDescribes(init);
      StepDescribes(Grouped(init), init, ps[|ps| - 1]);
      assert init + [ps[|ps| - 1]] == ps;
    }
  }

  /** Group names are pairwise distinct. */
  lemma {:induction false} FirstSeenDistinct(ps: seq<Product>)
    requires Categorised(ps)
    ensures forall i, j :: 0 <= i < j < |FirstSeen(ps)| ==> FirstSeen(ps)[i] != FirstSeen(ps)[j]
  {
    if |ps| > 0 {
      CategorisedPrefix(ps, |ps| - 1);
      FirstSeenDistinct(ps[..|ps| - 1]);
    }
  }

  // ---------------------------------------------------------------------
  // Loading state and what is shown
  // ---------------------------------------------------------------------

  const Initial: MainState := MainState([], true, None)

  /** `cargarProductos`: set loading, run the query, group the rows or
      record the error message, and clear the loading flag either way. */
  function Load(st: MainState, f: Fetch): (r: MainState)
    ensures !r.isLoading
    ensures f.Failed? ==> r.error == Some(f.message) && r.categorias == st.categorias
    ensures f.Rows? && Categorised(f.data) ==> r.categorias == Grouped(f.data) && r.error == st.error
    ensures f.Rows? && !Categorised(f.data) ==> r.error == Some(NullCategoriaMessage) && r.categorias == st.categorias
  {
    var loading := st.(isLoading := true);
    match f
    case Failed(msg) => loading.(error := Some(msg), isLoading := false)
    case Rows(data) =>
      match GroupByCategory(data)
      case Ok(gs) => loading.(categorias := gs, isLoading := false)
      case Err(msg) => loading.(error := Some(msg), isLoading := false)
  }

  /** The page: a truthy (non-empty) error wins, then the loading flag,
      then the grouped menu. */
  function Render(st: MainState): (v: View)
    ensures st.error.Some? && st.error.value != "" ==> v == ShowError(st.error.value)
    ensures v.ShowLoading? <==> (st.error == None || st.error == Some("")) && st.isLoading
    ensures v.ShowMenu? ==> v.groups == st.categorias && !st.isLoading
    ensures (st.error == None || st.error == Some("")) && !st.isLoading ==> v == ShowMenu(st.categorias)
    ensures v.ShowError? ==> st.error == Some(v.message) && v.message != ""
  {
    if st.error.Some? && st.error.value != "" then ShowError(st.error.value)
    else if st.isLoading then ShowLoading
    else ShowMenu(st.categorias)
  }

  /** The page starts loading and never shows the loading indicator once
      the query has settled, whatever its outcome. */
  lemma {:induction false} LoadSettles(f: Fetch)
    ensures Render(Initial).ShowLoading?
    ensures !Render(Load(Initial, f)).ShowLoading?
  {
  }

  /** A successful load of categorised rows shows the grouped menu; a failed
      query with a message shows that message. */
  lemma {:induction false} LoadOutcome(f: Fetch)
    ensures f.Rows? && Categorised(f.data) ==> Render(Load(Initial, f)) == ShowMenu(Grouped(f.data))
    ensures f.Failed? && f.message != "" ==> Render(Load(Initial, f)) == ShowError(f.message)
    ensures f.Failed? && f.message == "" ==> Render(Load(Initial, f)) == ShowMenu([])
  {
  }
}
