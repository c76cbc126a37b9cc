/** The page's working set of products: a list keyed by id that the user edits, extends,
    duplicates and shrinks, and the rule that keeps the selected tab pointing at a product. */
module Products {
  import opened Common
  import opened Engine
  import Decimal

  /** The tab that shows all products side by side instead of one of them. */
  const ComparisonTab: string := "comparison"

  predicate HasId(ps: seq<Product>, id: string) {
    exists i :: 0 <= i < |ps| && ps[i].id == id
  }

  predicate UniqueIds(ps: seq<Product>) {
    forall i, j :: 0 <= i < j < |ps| ==> ps[i].id != ps[j].id
  }

  /** What the page keeps true of its list: at least one product, no id twice. */
  predicate WorkingSet(ps: seq<Product>) {
    |ps| >= 1 && UniqueIds(ps)
  }

  /** `addProduct`: a product with the default figures named "<baseName> <n>", where `baseName` is
      the translated "new product" text and `n` the new length of the list. */
  function AddProduct(ps: seq<Product>, newId: string, baseName: string): (r: seq<Product>)
    ensures |r| == |ps| + 1
    ensures r[..|ps|] == ps
    ensures r[|ps|].id == newId
    ensures r[|ps|].productName == baseName + " " + Decimal.NatToString(|r|)
    ensures SameFigures(r[|ps|], CreateDefaultValues(newId, baseName))
  {
    ps + [CreateDefaultValues(newId, baseName + " " + Decimal.NatToString(|ps| + 1))]
  }

  /** `duplicateProduct`: a copy of `p` under a new id, its name suffixed with the translated
      "copy" text in parentheses. */
  function DuplicateProduct(ps: seq<Product>, p: Product, newId: string, copyLabel: string): (r: seq<Product>)
    ensures |r| == |ps| + 1
    ensures r[..|ps|] == ps
    ensures r[|ps|].id == newId
    ensures r[|ps|].productName == p.productName + " (" + copyLabel + ")"
    ensures SameFigures(r[|ps|], p)
  {
    var copy := p.(id := newId, productName := p.productName + " (" + copyLabel + ")");
    ps + [copy]
  }

  /** A duplicate shows exactly the metrics of the product it copies. */
  lemma DuplicateHasSameMetrics(ps: seq<Product>, p: Product, newId: string, copyLabel: string)
    ensures Calculate(DuplicateProduct(ps, p, newId, copyLabel)[|ps|]) == Calculate(p)
  {
    CalculateDependsOnFiguresOnly(DuplicateProduct(ps, p, newId, copyLabel)[|ps|], p);
  }

  function CountId(ps: seq<Product>, id: string): nat {
    if |ps| == 0 then 0 else (if ps[0].id == id then 1 else 0) + CountId(ps[1..], id)
  }

  /** The list without the entries carrying `id`, in their original order. */
  function Without(ps: seq<Product>, id: string): (r: seq<Product>)
    ensures |r| == |ps| - CountId(ps, id)
    ensures forall i :: 0 <= i < |r| ==> r[i].id != id
  {
    if |ps| == 0 then []
    else if ps[0].id == id then Without(ps[1..], id)
    else [ps[0]] + Without(ps[1..], id)
  }

  /** The filter keeps exactly the entries with other ids. */
  lemma {:induction false} WithoutMembers(ps: seq<Product>, id: string)
    ensures forall q :: q in Without(ps, id) <==> q in ps && q.id != id
  {
    if |ps| > 0 {
      WithoutMembers(ps[1..], id);
      assert ps == [ps[0]] + ps[1..];
    }
  }

  lemma WithoutCons(x: Product, t: seq<Product>, id: string)
    ensures Without([x] + t, id) == (if x.id == id then [] else [x]) + Without(t, id)
  {
    assert ([x] + t)[0] == x && ([x] + t)[1..] == t;
  }

  /** Filtering distributes over concatenation, so the kept entries keep their relative order. */
  lemma {:induction false} WithoutAppend(a: seq<Product>, b: seq<Product>, id: string)
    ensures Without(a + b, id) == Without(a, id) + Without(b, id)
  {
    if |a| == 0 {
      assert a + b == b;
    } else {
      var x, t := a[0], a[1..];
      assert a == [x] + t;
      assert a + b == [x] + (t + b);
      WithoutAppend(t, b, id);
      WithoutCons(x, t + b, id);
      WithoutCons(x, t, id);
    }
  }

  /** `removeProduct`: ignored while only one product is left. */
  function RemoveProduct(ps: seq<Product>, id: string): (r: seq<Product>)
    ensures |ps| <= 1 ==> r == ps
    ensures |ps| > 1 ==> r == Without(ps, id)
    ensures !HasId(ps, id) ==> r == ps
  {
    if |ps| > 1 then (WithoutAbsent(ps, id); Without(ps, id)) else ps
  }

  lemma {:induction false} WithoutAbsent(ps: seq<Product>, id: string)
    ensures !HasId(ps, id) ==> Without(ps, id) == ps
  {
    if |ps| > 0 && !HasId(ps, id) {
      assert !HasId(ps[1..], id) by {
        forall i | 0 <= i < |ps[1..]|
          ensures ps[1..][i].id != id
        {
          assert ps[1..][i] == ps[i + 1];
        }
      }
      WithoutAbsent(ps[1..], id);
      assert ps == [ps[0]] + ps[1..];
    }
  }

  lemma {:induction false} CountUnique(ps: seq<Product>, id: string)
    requires UniqueIds(ps)
    ensures CountId(ps, id) <= 1
    ensures CountId(ps, id) == 1 <==> HasId(ps, id)
  {
    if |ps| > 0 {
      assert UniqueIds(ps[1..]) by {
        forall i, j | 0 <= i < j < |ps[1..]|
          ensures ps[1..][i].id != ps[1..][j].id
        {
          assert ps[1..][i] == ps[i + 1] && ps[1..][j] == ps[j + 1];
        }
      }
      CountUnique(ps[1..], id);
      if ps[0].id == id {
        assert !HasId(ps[1..], id);
        assert HasId(ps, id);
      } else {
        assert HasId(ps, id) <==> HasId(ps[1..], id) by {
          if HasId(ps, id) {
            var i :| 0 <= i < |ps| && ps[i].id == id;
            assert ps[1..][i - 1] == ps[i];
          }
          if HasId(ps[1..], id) {
            var i :| 0 <= i < |ps[1..]| && ps[1..][i].id == id;
            assert ps[i + 1] == ps[1..][i];
          }
        }
      }
    }
  }

  lemma {:induction false} WithoutKeepsUnique(ps: seq<Product>, id: string)
    requires UniqueIds(ps)
    ensures UniqueIds(Without(ps, id))
  {
    if |ps| > 0 {
      var tail := ps[1..];
      assert UniqueIds(tail) by {
        forall i, j | 0 <= i < j < |tail|
          ensures tail[i].id != tail[j].id
        {
          assert tail[i] == ps[i + 1] && tail[j] == ps[j + 1];
        }
      }
      WithoutKeepsUnique(tail, id);
      WithoutMembers(tail, id);
      if ps[0].id != id {
        var w := Without(tail, id);
        assert forall q :: q in w ==> q.id != ps[0].id by {
          forall q | q in w
            ensures q.id != ps[0].id
          {
            assert q in tail;
            var k :| 0 <= k < |tail| && tail[k] == q;
            assert ps[k + 1] == q;
          }
        }
        var r := [ps[0]] + w;
        forall i, j | 0 <= i < j < |r|
          ensures r[i].id != r[j].id
        {
          if i == 0 {
            assert r[j] == w[j - 1];
            assert r[j] in w;
          } else {
            assert r[i] == w[i - 1] && r[j] == w[j - 1];
          }
        }
      }
    }
  }

  /** Removing from a well-formed working set keeps it well formed: the source refuses to remove
      the last product, and unique ids mean at most one entry goes. */
  lemma RemoveKeepsWorkingSet(ps: seq<Product>, id: string)
    requires WorkingSet(ps)
    ensures WorkingSet(RemoveProduct(ps, id))
    ensures |RemoveProduct(ps, id)| == (if |ps| > 1 && HasId(ps, id) then |ps| - 1 else |ps|)
    ensures !HasId(RemoveProduct(ps, id), id) <==> |ps| > 1 || !HasId(ps, id)
  {
    CountUnique(ps, id);
    if |ps| > 1 {
      WithoutKeepsUnique(ps, id);
    }
  }

  /** Adding or duplicating under an id not yet in the list keeps the working set well formed. */
  lemma AppendKeepsWorkingSet(ps: seq<Product>, p: Product, newId: string, baseName: string)
    requires WorkingSet(ps)
    requires !HasId(ps, newId)
    ensures WorkingSet(AddProduct(ps, newId, baseName))
    ensures WorkingSet(DuplicateProduct(ps, p, newId, baseName))
  {
    var a := AddProduct(ps, newId, baseName);
    forall i, j | 0 <= i < j < |a|
      ensures a[i].id != a[j].id
    {
      assert a[i] == ps[i];
      if j < |ps| {
        assert a[j] == ps[j];
      }
    }
    var d := DuplicateProduct(ps, p, newId, baseName);
    forall i, j | 0 <= i < j < |d|
      ensures d[i].id != d[j].id
    {
      assert d[i] == ps[i];
      if j < |ps| {
        assert d[j] == ps[j];
      }
    }
  }

  /** The fields a product card edits: the name or one of the six figures. */
  datatype Figure = Aov | ProductCost | CreditCardFeePercent | PaymentProcessingFee | ShippingCost | FulfillmentCost
  datatype Field = Name | Number(figure: Figure)

  function GetFigure(p: Product, f: Figure): real {
    match f
    case Aov => p.aov
    case ProductCost => p.productCost
    case CreditCardFeePercent => p.creditCardFeePercent
    case PaymentProcessingFee => p.paymentProcessingFee
    case ShippingCost => p.shippingCost
    case FulfillmentCost => p.fulfillmentCost
  }

  /** `p` with one figure replaced. */
  function SetFigure(p: Product, f: Figure, v: real): (q: Product)
    ensures GetFigure(q, f) == v
    ensures forall g :: g != f ==> GetFigure(q, g) == GetFigure(p, g)
    ensures q.id == p.id && q.productName == p.productName
  {
    match f
    case Aov => p.(aov := v)
    case ProductCost => p.(productCost := v)
    case CreditCardFeePercent => p.(creditCardFeePercent := v)
    case PaymentProcessingFee => p.(paymentProcessingFee := v)
    case ShippingCost => p.(shippingCost := v)
    case FulfillmentCost => p.(fulfillmentCost := v)
  }

  /** `parseFloat(value) || 0`: a parse that fails (NaN) or yields zero gives 0. */
  function NumberOrZero(parsed: Option<real>): (v: real)
    ensures parsed.None? ==> v == 0.0
    ensures parsed.Some? && parsed.value != 0.0 ==> v == parsed.value
    ensures v != 0.0 ==> parsed == Some(v)
  {
    match parsed
    case Some(x) => if x != 0.0 then x else 0.0
    case None => 0.0
  }

  /** One product after an edit of `field` to the typed text `value`. */
  function Edit(p: Product, field: Field, value: string, parse: string -> Option<real>): (q: Product)
    ensures q.id == p.id
    ensures field == Name ==> q == p.(productName := value)
    ensures field.Number? ==> q.productName == p.productName
    ensures field.Number? ==> GetFigure(q, field.figure) == NumberOrZero(parse(value))
    ensures field.Number? ==> forall g :: g != field.figure ==> GetFigure(q, g) == GetFigure(p, g)
  {
    match field
    case Name => p.(productName := value)
    case Number(f) => SetFigure(p, f, NumberOrZero(parse(value)))
  }

  /** `updateProduct`: every entry with the id gets the edit; nothing else moves or changes. */
  function UpdateProduct(ps: seq<Product>, id: string, field: Field, value: string,
                         parse: string -> Option<real>): (r: seq<Product>)
    ensures |r| == |ps|
    ensures forall i :: 0 <= i < |ps| && ps[i].id != id ==> r[i] == ps[i]
    ensures forall i :: 0 <= i < |ps| && ps[i].id == id ==> r[i] == Edit(ps[i], field, value, parse)
    ensures forall i :: 0 <= i < |ps| ==> r[i].id == ps[i].id
  {
    seq(|ps|, i requires 0 <= i < |ps| =>
      if ps[i].id == id then Edit(ps[i], field, value, parse) else ps[i])
  }

  lemma UpdateKeepsWorkingSet(ps: seq<Product>, id: string, field: Field, value: string,
                              parse: string -> Option<real>)
    requires WorkingSet(ps)
    ensures WorkingSet(UpdateProduct(ps, id, field, value, parse))
  {
  }

  /** The effect that runs whenever the list or the tab changes: a tab whose product has gone
      switches to the last product; the comparison tab stays. */
  function FixActiveTab(ps: seq<Product>, active: string): (r: string)
    ensures active == ComparisonTab ==> r == active
    ensures HasId(ps, active) ==> r == active
    ensures active != ComparisonTab && !HasId(ps, active) && |ps| > 0 ==> r == ps[|ps| - 1].id
    ensures |ps| == 0 ==> r == active
    ensures |ps| > 0 ==> r == ComparisonTab || HasId(ps, r)
  {
    if active == ComparisonTab then active
    else if HasId(ps, active) then active
    else if |ps| > 0 then ps[|ps| - 1].id
    else active
  }

  /** The effect reaches a fixed point: running it again on its own result changes nothing. */
  lemma FixActiveTabIdempotent(ps: seq<Product>, active: string)
    ensures FixActiveTab(ps, FixActiveTab(ps, active)) == FixActiveTab(ps, active)
  {
  }

  /** Removing the product whose tab is open moves the tab to the last product left. */
  lemma RemoveActiveSwitchesToLast(ps: seq<Product>, id: string)
    requires WorkingSet(ps) && |ps| > 1 && HasId(ps, id) && id != ComparisonTab
    ensures var r := RemoveProduct(ps, id);
            |r| == |ps| - 1 && FixActiveTab(r, id) == r[|r| - 1].id
  {
    RemoveKeepsWorkingSet(ps, id);
  }

  /** The page's first product, numbered 1. */
  lemma AddToSingleNamesSecond(p: Product, newId: string, baseName: string)
    ensures AddProduct([p], newId, baseName)[1].productName == baseName + " 2"
  {
  }
}
